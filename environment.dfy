/** The process environment, read once when the services are built. */
module Environment {

  /** The environment variables, by name. */
  type Env = map<string, string>

  /** `os.getenv(key, default)`: the variable's value when it is set, else `default`. */
  function GetEnv(env: Env, key: string, default: string): string {
    if key in env then env[key] else default
  }
}
