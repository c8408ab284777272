/**
 * The retrieval service (backend/rag_service.py): its configuration, the `k` default
 * of `retrieve_context`, and the formatting of retrieved passages into one context
 * string. The vector store's similarity search is an opaque function of the query and
 * `k`; nothing is assumed about what it returns or in which order.
 */
module Rag {
  import opened Wrappers
  import opened PyStrings
  import opened Environment

  /** A retrieved passage: its text and, when the store has one, its rendered `page` metadata. */
  datatype Document = Document(pageContent: string, page: Option<string>)

  /** The vector store's `similarity_search(query, k)`. */
  type Search = (string, int) -> seq<Document>

  const NoInformation: string := "No relevant information found in the Usool al-Hadith book."
  const BlockSeparator: string := "\n\n"
  const DefaultIndexName: string := "usool-hadith-index"
  const DefaultTopK: string := "5"

  /** The page label of a passage: its `page` metadata, or `Unknown` when there is none. */
  function PageLabel(d: Document): string {
    d.page.GetOr("Unknown")
  }

  /**
   * The block for the passage numbered `i`: a source header naming the number and the
   * page, then the passage's text with its surrounding whitespace removed.
   */
  function SourceBlock(i: nat, d: Document): (b: string)
    ensures "[Source " + NatToString(i) <= b
    ensures var text := Strip(d.pageContent); |text| <= |b| && b[|b| - |text|..] == text
  {
    var header := "[Source " + NatToString(i) + " - Page " + PageLabel(d) + "]:\n";
    Framed(header, Strip(d.pageContent), []);
    assert "[Source " + NatToString(i) <= header;
    header + Strip(d.pageContent)
  }

  /** The blocks of `docs`, numbered from 1 in input order, built by appending. */
  function Blocks(docs: seq<Document>): (blocks: seq<string>)
    ensures |blocks| == |docs|
  {
    if docs == [] then [] else Blocks(docs[..|docs| - 1]) + [SourceBlock(|docs|, docs[|docs| - 1])]
  }

  /** The block at index `k` is the block of passage `k`, numbered `k + 1`. */
  lemma {:induction false} BlocksAt(docs: seq<Document>, k: nat)
    requires k < |docs|
    ensures Blocks(docs)[k] == SourceBlock(k + 1, docs[k])
  {
    if k < |docs| - 1 {
      var front := docs[..|docs| - 1];
      BlocksAt(front, k);
      assert front[k] == docs[k];
    }
  }

  /** What `format_context(docs)` returns; never the empty string. */
  function FormattedContext(docs: seq<Document>): (r: string)
    ensures r != ""
  {
    if docs == [] then NoInformation
    else
      BlocksAt(docs, 0);
      Join(BlockSeparator, Blocks(docs))
  }

  /**
   * The `top_k` setting: `int(os.getenv("TOP_K_RESULTS", "5"))`; `None` is the
   * `ValueError`. Without `TOP_K_RESULTS` in the environment it is 5.
   */
  function ConfiguredTopK(env: Env): (r: Option<int>)
    ensures "TOP_K_RESULTS" !in env ==> r == Some(5)
  {
    ParsePrinted(5);
    assert IntToString(5) == DefaultTopK;
    ParseInt(GetEnv(env, "TOP_K_RESULTS", DefaultTopK))
  }

  /** With at least one passage, the context starts with the block of the first passage. */
  lemma FormattedStartsWithFirst(docs: seq<Document>)
    requires docs != []
    ensures SourceBlock(1, docs[0]) <= FormattedContext(docs)
  {
    BlocksAt(docs, 0);
  }

  /**
   * One more passage adds a blank line and its block, numbered after the others: the
   * blocks appear in input order, numbered 1, 2, ...
   */
  lemma FormattedSnoc(docs: seq<Document>, d: Document)
    requires docs != []
    ensures FormattedContext(docs + [d]) == FormattedContext(docs) + "\n\n" + SourceBlock(|docs| + 1, d)
  {
    assert (docs + [d])[..|docs|] == docs;
    JoinSnoc(BlockSeparator, Blocks(docs), SourceBlock(|docs| + 1, d));
  }

  /** Every passage's block, and so its stripped text, appears in the context. */
  lemma FormattedHasEveryPassage(docs: seq<Document>, k: nat)
    requires k < |docs|
    ensures Contains(FormattedContext(docs), SourceBlock(k + 1, docs[k]))
    ensures Contains(FormattedContext(docs), Strip(docs[k].pageContent))
  {
    var text := FormattedContext(docs);
    var block := SourceBlock(k + 1, docs[k]);
    JoinHasPart(BlockSeparator, Blocks(docs), k);
    BlocksAt(docs, k);
    var i :| OccursAt(text, block, i);
    ContainsIff(text, block);
    var header := "[Source " + NatToString(k + 1) + " - Page " + PageLabel(docs[k]) + "]:\n";
    var content := Strip(docs[k].pageContent);
    OccursInConcat(header, content, [], content, 0);
    assert header + content + [] == block;
    OccursTransitive(text, block, content, i, |header|);
    ContainsIff(text, content);
  }

  /** The retrieval service; its fields are set once, when it is built. */
  class RAGService {
    const indexName: string
    const topK: int
    const search: Search

    constructor (indexName: string, topK: int, search: Search)
      ensures this.indexName == indexName && this.topK == topK && this.search == search
    {
      this.indexName := indexName;
      this.topK := topK;
      this.search := search;
    }

    /**
     * `RAGService()`: reads the index name and `top_k` from the environment; `None` when
     * `TOP_K_RESULTS` is not an integer (the constructor raises).
     */
    static method FromEnvironment(env: Env, search: Search) returns (r: Option<RAGService>)
      ensures r.None? <==> ConfiguredTopK(env).None?
      ensures r.Some? ==> r.value.topK == ConfiguredTopK(env).value
      ensures r.Some? ==> r.value.indexName == GetEnv(env, "PINECONE_INDEX_NAME", DefaultIndexName)
      ensures r.Some? ==> r.value.search == search
    {
      match ConfiguredTopK(env)
      case None =>
        r := None;
      case Some(k) =>
        var service := new RAGService(GetEnv(env, "PINECONE_INDEX_NAME", DefaultIndexName), k, search);
        r := Some(service);
    }

    /** What `query(question)` returns: the formatted passages retrieved with `k = top_k`. */
    function QueryText(question: string): (r: string)
      ensures r != ""
    {
      FormattedContext(search(question, topK))
    }

    /** `retrieve_context(query, k)`: an omitted `k` is the configured `top_k`. */
    method RetrieveContext(query: string, k: Option<int>) returns (docs: seq<Document>)
      ensures k.None? ==> docs == search(query, topK)
      ensures k.Some? ==> docs == search(query, k.value)
    {
      var n := if k.None? then topK else k.value;
      docs := search(query, n);
    }

    /**
     * `format_context(documents)`: no passages give the fixed "no information" sentence;
     * otherwise one block per passage, numbered from 1, joined by a blank line.
     */
    method FormatContext(documents: seq<Document>) returns (r: string)
      ensures r == FormattedContext(documents)
      ensures r != ""
    {
      if documents == [] {
        return NoInformation;
      }
      var parts: seq<string> := [];
      var i := 0;
      while i < |documents|
        invariant 0 <= i <= |documents|
        invariant parts == Blocks(documents[..i])
      {
        assert documents[..i + 1][..i] == documents[..i];
        parts := parts + [SourceBlock(i + 1, documents[i])];
        i := i + 1;
      }
      assert documents[..i] == documents;
      r := Join(BlockSeparator, parts);
    }

    /** `query(question)`: retrieval with the default `k`, then formatting; never empty. */
    method Query(question: string) returns (r: string)
      ensures r == QueryText(question)
      ensures r != ""
    {
      var documents := RetrieveContext(question, None);
      r := FormatContext(documents);
    }
  }
}
