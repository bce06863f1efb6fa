/**
 * The process environment as the code sees it through `process.env`.
 * A variable that was never exported is absent from the map.
 */
module Env {

  type Environment = map<string, string>

  /**
   * JavaScript truthiness of `process.env.NAME`: the variable is defined
   * and is not the empty string.
   */
  predicate IsSet(env: Environment, name: string)
  {
    name in env && env[name] != ""
  }

  /** Two environments agree on `name` as far as truthiness and value go. */
  predicate AgreeOn(env1: Environment, env2: Environment, name: string)
  {
    (name in env1) == (name in env2) && (name in env1 ==> env1[name] == env2[name])
  }
}
