/**
 * The two lookup tools the voice agent can call (backend/tools.py): narrator
 * information and hadith classifications. Each normalises its argument with
 * `lower().strip()`, looks the key up in a fixed table and formats either the entry
 * or a fallback that quotes the argument as given. Both are total functions of their
 * argument: the tables are rebuilt on each call and nothing is changed.
 */
module Tools {
  import opened Wrappers
  import opened PyStrings

  // ---------------------------------------------------------------------------
  // get_narrator_info
  // ---------------------------------------------------------------------------

  /** One narrator record; `studentOf` and `companionOf` are present for some records only. */
  datatype Narrator = Narrator(
    fullName: string,
    grade: string,
    era: string,
    knownFor: string,
    studentOf: Option<string>,
    companionOf: Option<string>)

  const Bukhari: Narrator := Narrator(
    "Muhammad ibn Ismail al-Bukhari",
    "Highly Trustworthy (Thiqa)",
    "3rd century AH",
    "Compiler of Sahih al-Bukhari, one of the most authentic hadith collections",
    Some("Imam Ahmad, Ali ibn al-Madini"),
    None)

  const Muslim: Narrator := Narrator(
    "Muslim ibn al-Hajjaj",
    "Highly Trustworthy (Thiqa)",
    "3rd century AH",
    "Compiler of Sahih Muslim",
    Some("Imam Ahmad, Ishaq ibn Rahawayh"),
    None)

  const AbuHurairah: Narrator := Narrator(
    "Abd al-Rahman ibn Sakhr al-Dawsi",
    "Companion (Sahabi) - Highest Grade",
    "1st century AH",
    "Most prolific narrator of hadith, narrated over 5,000 hadiths",
    None,
    Some("Prophet Muhammad (peace be upon him)"))

  const Tirmidhi: Narrator := Narrator(
    "Muhammad ibn Isa at-Tirmidhi",
    "Trustworthy (Thiqa)",
    "3rd century AH",
    "Compiler of Jami' at-Tirmidhi, one of the six canonical hadith collections",
    Some("Imam Bukhari"),
    None)

  const IbnMajah: Narrator := Narrator(
    "Muhammad ibn Yazid ibn Majah",
    "Trustworthy (Thiqa)",
    "3rd century AH",
    "Compiler of Sunan Ibn Majah",
    Some("Abu Bakr ibn Abi Shaybah"),
    None)

  /** The narrators the tool knows, by normalised name. */
  const Narrators: map<string, Narrator> := map[
    "bukhari" := Bukhari,
    "muslim" := Muslim,
    "abu hurairah" := AbuHurairah,
    "tirmidhi" := Tirmidhi,
    "ibn majah" := IbnMajah
  ]

  /** The lookup key of an argument: `name.lower().strip()`. */
  function LookupKey(name: string): (key: string)
    ensures Stripped(key) && LowerCased(key)
  {
    StripKeepsLowerCase(Lower(name));
    Strip(Lower(name))
  }

  /** The teacher or connection line: `student_of`, else `companion_of`, else `N/A`. */
  function Connection(n: Narrator): (r: string)
    ensures || (n.studentOf.Some? && r == n.studentOf.value)
            || (n.companionOf.Some? && r == n.companionOf.value)
            || r == "N/A"
  {
    match n.studentOf
    case Some(teacher) => teacher
    case None => n.companionOf.GetOr("N/A")
  }

  /**
   * A narrator's card: bold full name, grade, era, what it is known for, connection. It
   * opens with the full name in bold on a line of its own and closes with the
   * connection line.
   */
  function NarratorCard(n: Narrator): (card: string)
    ensures "**" + n.fullName + "**\n" <= card
    ensures var last := "Teacher/Connection: " + Connection(n);
      |last| <= |card| && card[|card| - |last|..] == last
  {
    "**" + n.fullName + "**\n"
    + "Reliability Grade: " + n.grade + "\n"
    + "Era: " + n.era + "\n"
    + "Known for: " + n.knownFor + "\n"
    + "Teacher/Connection: " + Connection(n)
  }

  /** An argument quoted in single quotes, as the fallbacks show it. */
  function Quoted(s: string): string {
    "'" + s + "'"
  }

  const NarratorMissLead: string := "I don't have detailed information about "
  const NarratorMissTail: string :=
    " in my database. "
    + "However, I can help you understand the general principles of narrator criticism "
    + "(Ilm al-Rijal) from Usool al-Hadith if you'd like."

  /** The answer for a name that is not in the table; it quotes the name as given. */
  function NarratorFallback(name: string): string {
    NarratorMissLead + Quoted(name) + NarratorMissTail
  }

  /**
   * `get_narrator_info(narrator_name)`: a known name gets a card headed by the full name
   * of its entry; any other name gets an answer that quotes it as given.
   */
  function GetNarratorInfo(name: string): (r: string)
    ensures LookupKey(name) in Narrators ==> "**" + Narrators[LookupKey(name)].fullName + "**\n" <= r
    ensures LookupKey(name) !in Narrators ==> Contains(r, Quoted(name))
  {
    var key := LookupKey(name);
    if key in Narrators then NarratorCard(Narrators[key])
    else
      ContainsMiddle(NarratorMissLead, Quoted(name), NarratorMissTail);
      NarratorFallback(name)
  }

  /**
   * The key ignores letter case and whitespace around the name: padding a name with
   * whitespace, or lower-casing it, never changes which entry it finds.
   */
  lemma LookupKeyNormalises(p: string, name: string, q: string)
    requires AllSpace(p) && AllSpace(q)
    ensures LookupKey(p + name + q) == LookupKey(name)
    ensures LookupKey(Lower(name)) == LookupKey(name)
  {
    LowerConcat(p + name, q);
    LowerConcat(p, name);
    LowerAllSpace(p);
    LowerAllSpace(q);
    StripPadded(Lower(p), Lower(name), Lower(q));
    LowerIdempotent(name);
  }

  /** A name whose key is in the table gets the card of that key's entry. */
  lemma NarratorHit(name: string)
    requires LookupKey(name) in Narrators
    ensures GetNarratorInfo(name) == NarratorCard(Narrators[LookupKey(name)])
  {
  }

  /** A name whose key is not in the table gets the fallback, which quotes the name verbatim. */
  lemma NarratorMiss(name: string)
    requires LookupKey(name) !in Narrators
    ensures GetNarratorInfo(name) == NarratorFallback(name)
    ensures Contains(GetNarratorInfo(name), Quoted(name))
  {
    ContainsMiddle(NarratorMissLead, Quoted(name), NarratorMissTail);
  }

  /** The connection is the teacher when one is recorded, else the companion, else `N/A`. */
  lemma ConnectionSpec(n: Narrator)
    ensures n.studentOf.Some? ==> Connection(n) == n.studentOf.value
    ensures n.studentOf.None? && n.companionOf.Some? ==> Connection(n) == n.companionOf.value
    ensures n.studentOf.None? && n.companionOf.None? ==> Connection(n) == "N/A"
  {
  }

  /** Abu Hurairah has no teacher recorded: his connection is the one he was companion of. */
  lemma AbuHurairahConnection()
    ensures Narrators["abu hurairah"] == AbuHurairah
    ensures Connection(AbuHurairah) == "Prophet Muhammad (peace be upon him)"
  {
  }

  /** " BUKHARI " finds the `bukhari` entry. */
  lemma PaddedCapitalsHit()
    ensures LookupKey(" BUKHARI ") == "bukhari"
    ensures GetNarratorInfo(" BUKHARI ") == NarratorCard(Bukhari)
  {
    PaddedBukhariKey();
    BukhariEntry();
    NarratorHit(" BUKHARI ");
  }

  lemma BukhariEntry()
    ensures "bukhari" in Narrators && Narrators["bukhari"] == Bukhari
  {
  }

  lemma PaddedBukhariKey()
    ensures LookupKey(" BUKHARI ") == "bukhari"
  {
    assert " BUKHARI " == " " + "BUKHARI" + " ";
    LookupKeyNormalises(" ", "BUKHARI", " ");
    KeyOfBukhari();
  }


  lemma KeyOfBukhari()
    ensures LookupKey("BUKHARI") == "bukhari"
  {
    LowerBukhari();
    StrippedIsFixed("bukhari");
  }

  lemma LowerBukhari()
    ensures Lower("BUKHARI") == "bukhari"
  {
    LowerAt("BUKHARI");
  }

  // ---------------------------------------------------------------------------
  // get_hadith_classification
  // ---------------------------------------------------------------------------

  /** One classification record: the Arabic term and its explanation. */
  datatype Classification = Classification(
    arabic: string,
    meaning: string,
    definition: string,
    usage: string,
    example: string)

  const Sahih: Classification := Classification(
    "\U{0635}\U{062d}\U{064a}\U{062d}",
    "Authentic/Sound",
    "A hadith with a continuous chain of trustworthy narrators, no defects, and no irregularities",
    "Can be used as proof in Islamic law",
    "Hadiths in Sahih Bukhari and Sahih Muslim")

  const Hasan: Classification := Classification(
    "\U{062d}\U{0633}\U{0646}",
    "Good",
    "Similar to Sahih but with slightly less strict narrator reliability",
    "Can be used as proof, though slightly weaker than Sahih",
    "Many hadiths in Jami' at-Tirmidhi")

  const Daif: Classification := Classification(
    "\U{0636}\U{0639}\U{064a}\U{0641}",
    "Weak",
    "A hadith with a break in the chain or unreliable narrator",
    "Cannot be used as primary proof, but may be used for virtuous deeds",
    "Some hadiths in Sunan Ibn Majah")

  const Mawdu: Classification := Classification(
    "\U{0645}\U{0648}\U{0636}\U{0648}\U{0639}",
    "Fabricated/Forged",
    "A hadith that is completely fabricated and falsely attributed",
    "Completely rejected and cannot be used",
    "Various fabricated hadiths identified by hadith critics")

  const Mutawatir: Classification := Classification(
    "\U{0645}\U{062a}\U{0648}\U{0627}\U{062a}\U{0631}",
    "Continuously Recurrent",
    "Narrated by so many people at each level that fabrication is impossible",
    "Highest level of certainty, equivalent to definitive knowledge",
    "The five daily prayers")

  /** The classifications the tool knows, by normalised term. */
  const Classifications: map<string, Classification> := map[
    "sahih" := Sahih,
    "hasan" := Hasan,
    "daif" := Daif,
    "mawdu" := Mawdu,
    "mutawatir" := Mutawatir
  ]

  /**
   * The card of a known classification. Its heading is the term as given (not its key)
   * in capitals, then the Arabic term in parentheses; it closes with the example.
   */
  function ClassificationCard(term: string, c: Classification): (card: string)
    ensures "**" + Upper(term) + " (" + c.arabic + ")**\n" <= card
    ensures var last := "Example: " + c.example;
      |last| <= |card| && card[|card| - |last|..] == last
  {
    "**" + Upper(term) + " (" + c.arabic + ")**\n"
    + "Meaning: " + c.meaning + "\n\n"
    + "Definition: " + c.definition + "\n\n"
    + "Usage in Islamic Law: " + c.usage + "\n\n"
    + "Example: " + c.example
  }

  const ClassificationMissLead: string := "I don't have specific information about "
  const ClassificationMissTail: string :=
    " classification. "
    + "The main classifications are: Sahih (Authentic), Hasan (Good), Da'if (Weak), "
    + "Mawdu' (Fabricated), and Mutawatir (Continuously Recurrent). "
    + "Would you like to know about any of these?"

  /** The answer for an unknown term: it quotes the term as given and lists the five classes. */
  function ClassificationFallback(term: string): string {
    ClassificationMissLead + Quoted(term) + ClassificationMissTail
  }

  /**
   * `get_hadith_classification(classification)`: a known term gets a card headed by the
   * term as given, in capitals; any other term gets an answer that quotes it as given.
   */
  function GetHadithClassification(term: string): (r: string)
    ensures LookupKey(term) in Classifications ==> "**" + Upper(term) + " (" <= r
    ensures LookupKey(term) !in Classifications ==> Contains(r, Quoted(term))
  {
    var key := LookupKey(term);
    if key in Classifications then ClassificationCard(term, Classifications[key])
    else
      ContainsMiddle(ClassificationMissLead, Quoted(term), ClassificationMissTail);
      ClassificationFallback(term)
  }

  /**
   * A known term gets its entry's card, whose heading is the argument as given (not
   * its key) in capitals, followed by the Arabic term in parentheses.
   */
  lemma ClassificationHit(term: string)
    requires LookupKey(term) in Classifications
    ensures GetHadithClassification(term) == ClassificationCard(term, Classifications[LookupKey(term)])
  {
  }

  /** An unknown term gets the fixed fallback, which quotes the term verbatim. */
  lemma ClassificationMiss(term: string)
    requires LookupKey(term) !in Classifications
    ensures GetHadithClassification(term) == ClassificationFallback(term)
    ensures Contains(GetHadithClassification(term), Quoted(term))
  {
    ContainsMiddle(ClassificationMissLead, Quoted(term), ClassificationMissTail);
  }

  /** "Da'if", the usual spelling, is not found: the table's key is `daif`. */
  lemma DaifWithApostropheMisses()
    ensures GetHadithClassification("Da'if") == ClassificationFallback("Da'if")
  {
    KeyOfDaif();
    assert "da'if" !in Classifications;
  }

  lemma KeyOfDaif()
    ensures LookupKey("Da'if") == "da'if"
  {
    LowerDaif();
    StrippedIsFixed("da'if");
  }

  lemma LowerDaif()
    ensures Lower("Da'if") == "da'if"
  {
    LowerAt("Da'if");
  }


  /**
   * The heading keeps the whitespace around the term: a padded known term still finds
   * its entry, and the padding reappears, unchanged, around the capitalised term.
   */
  lemma PaddedTermKeepsPadding(p: string, term: string, q: string)
    requires AllSpace(p) && AllSpace(q)
    requires LookupKey(term) in Classifications
    ensures LookupKey(p + term + q) == LookupKey(term)
    ensures "**" + p + Upper(term) + q + " (" <= GetHadithClassification(p + term + q)
  {
    LookupKeyNormalises(p, term, q);
    PaddedHeading(p, term, q);
    Heading(p + term + q);
  }

  lemma PaddedHeading(p: string, term: string, q: string)
    requires AllSpace(p) && AllSpace(q)
    ensures "**" + Upper(p + term + q) + " (" == "**" + p + Upper(term) + q + " ("
  {
    UpperConcat(p + term, q);
    UpperConcat(p, term);
    UpperOfSpace(p);
    UpperOfSpace(q);
    Regroup("**", p, Upper(term), q, " (");
  }

  /** The heading of the answer for a known term. */
  lemma Heading(t: string)
    requires LookupKey(t) in Classifications
    ensures "**" + Upper(t) + " (" <= GetHadithClassification(t)
  {
  }
}
