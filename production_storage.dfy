/**
 * The choice of conversation store and vector store made once at start-up
 * from the environment (`createProductionStorage`). Only the constructor
 * chosen and the arguments it receives are modelled; the stores themselves
 * belong to the persistence libraries.
 */
module ProductionStorage {
  import opened Wrappers
  import opened Env

  const NodeEnv := "NODE_ENV"
  const DatabaseUrl := "DATABASE_URL"
  const UpstashUrl := "UPSTASH_REDIS_REST_URL"
  const UpstashToken := "UPSTASH_REDIS_REST_TOKEN"
  const LibsqlUrl := "LIBSQL_URL"
  const LibsqlAuthToken := "LIBSQL_AUTH_TOKEN"

  /** The database file of the development fallback. */
  const LocalDbFile := "file:./mastra.db"

  /** A conversation store constructor with its arguments. */
  datatype Store =
    | PostgresStore(connectionString: string)
    | UpstashStore(url: string, token: string)
    | LibSQLStore(url: string, authToken: Option<string>)

  /** A vector store constructor with its arguments. */
  datatype Vector =
    | UpstashVector(url: string, token: string)
    | LibSQLVector(connectionUrl: string, authToken: Option<string>)

  /** The `{ storage, vector }` pair; None stands for `undefined`. */
  datatype Backend = Backend(storage: Option<Store>, vector: Option<Vector>)

  /** The condition of the first branch: production with neither Postgres nor Upstash configured. */
  predicate StorageDisabled(env: Environment)
  {
    NodeEnv in env && env[NodeEnv] == "production"
    && !IsSet(env, DatabaseUrl) && !IsSet(env, UpstashUrl)
  }

  predicate UpstashConfigured(env: Environment)
  {
    IsSet(env, UpstashUrl) && IsSet(env, UpstashToken)
  }

  predicate LibsqlConfigured(env: Environment)
  {
    IsSet(env, LibsqlUrl) && IsSet(env, LibsqlAuthToken)
  }

  /**
   * `createProductionStorage`: the first branch in priority order whose
   * variables are set decides the backend.
   */
  function CreateProductionStorage(env: Environment): (b: Backend)
    // production without Postgres or Upstash: no storage at all, whatever LibSQL says
    ensures StorageDisabled(env) ==> b == Backend(None, None)
    // otherwise a connection string wins over everything after it, with no vector store
    ensures !StorageDisabled(env) && IsSet(env, DatabaseUrl)
            ==> b == Backend(Some(PostgresStore(env[DatabaseUrl])), None)
    // Upstash only when both of its variables are set and no earlier branch applied;
    // storage and vector then share one URL and token
    ensures (b.storage.Some? && b.storage.value.UpstashStore?)
            <==> !StorageDisabled(env) && !IsSet(env, DatabaseUrl) && UpstashConfigured(env)
    ensures b.storage.Some? && b.storage.value.UpstashStore? ==>
              b.storage.value == UpstashStore(env[UpstashUrl], env[UpstashToken])
              && b.vector == Some(UpstashVector(env[UpstashUrl], env[UpstashToken]))
    // remote LibSQL only when both of its variables are set and no earlier branch applied;
    // the store's url is the vector's connectionUrl
    ensures (b.storage.Some? && b.storage.value.LibSQLStore? && b.storage.value.authToken.Some?)
            <==> !StorageDisabled(env) && !IsSet(env, DatabaseUrl) && !UpstashConfigured(env)
                 && LibsqlConfigured(env)
    ensures b.storage.Some? && b.storage.value.LibSQLStore? && b.storage.value.authToken.Some? ==>
              b.storage.value == LibSQLStore(env[LibsqlUrl], Some(env[LibsqlAuthToken]))
              && b.vector == Some(LibSQLVector(env[LibsqlUrl], Some(env[LibsqlAuthToken])))
    // no branch matched: the local database file for both, without a token
    ensures !StorageDisabled(env) && !IsSet(env, DatabaseUrl) && !UpstashConfigured(env)
            && !LibsqlConfigured(env)
            ==> b == Backend(Some(LibSQLStore(LocalDbFile, None)), Some(LibSQLVector(LocalDbFile, None)))
    // a vector store is configured exactly when a store of the same family is
    ensures b.vector.Some? ==> b.storage.Some?
    ensures b.storage.None? <==> StorageDisabled(env)
  {
    if StorageDisabled(env) then
      Backend(None, None)
    else if IsSet(env, DatabaseUrl) then
      Backend(Some(PostgresStore(env[DatabaseUrl])), None)
    else if UpstashConfigured(env) then
      Backend(Some(UpstashStore(env[UpstashUrl], env[UpstashToken])),
              Some(UpstashVector(env[UpstashUrl], env[UpstashToken])))
    else if LibsqlConfigured(env) then
      Backend(Some(LibSQLStore(env[LibsqlUrl], Some(env[LibsqlAuthToken]))),
              Some(LibSQLVector(env[LibsqlUrl], Some(env[LibsqlAuthToken]))))
    else
      Backend(Some(LibSQLStore(LocalDbFile, None)), Some(LibSQLVector(LocalDbFile, None)))
  }

  /** The five outcomes the selector can produce. */
  datatype Choice = Disabled | Postgres | Upstash | RemoteLibSQL | LocalFile

  /** Which outcome a backend is, read off the constructors and arguments alone. */
  function ChoiceOf(b: Backend): Option<Choice>
  {
    match b
    case Backend(None, None) => Some(Disabled)
    case Backend(Some(PostgresStore(_)), None) => Some(Postgres)
    case Backend(Some(UpstashStore(u, t)), Some(UpstashVector(u', t'))) =>
      if u == u' && t == t' then Some(Upstash) else None
    case Backend(Some(LibSQLStore(u, Some(t))), Some(LibSQLVector(u', Some(t')))) =>
      if u == u' && t == t' then Some(RemoteLibSQL) else None
    case Backend(Some(LibSQLStore(u, None)), Some(LibSQLVector(u', None))) =>
      if u == LocalDbFile && u' == LocalDbFile then Some(LocalFile) else None
    case _ => None
  }

  /** Every environment yields exactly one well-formed outcome, the one the priority order picks. */
  lemma ExactlyOneOutcome(env: Environment)
    ensures ChoiceOf(CreateProductionStorage(env)).Some?
    ensures ChoiceOf(CreateProductionStorage(env)) == Some(
              if StorageDisabled(env) then Disabled
              else if IsSet(env, DatabaseUrl) then Postgres
              else if UpstashConfigured(env) then Upstash
              else if LibsqlConfigured(env) then RemoteLibSQL
              else LocalFile)
  {
  }

  /** The six variables the selector reads. */
  const Inputs := [NodeEnv, DatabaseUrl, UpstashUrl, UpstashToken, LibsqlUrl, LibsqlAuthToken]

  /** The backend depends on the six variables it reads and on nothing else in the environment. */
  lemma DependsOnlyOnInputs(env1: Environment, env2: Environment)
    requires forall i :: 0 <= i < |Inputs| ==> AgreeOn(env1, env2, Inputs[i])
    ensures CreateProductionStorage(env1) == CreateProductionStorage(env2)
  {
    assert AgreeOn(env1, env2, Inputs[0]);
    assert AgreeOn(env1, env2, Inputs[1]);
    assert AgreeOn(env1, env2, Inputs[2]);
    assert AgreeOn(env1, env2, Inputs[3]);
    assert AgreeOn(env1, env2, Inputs[4]);
    assert AgreeOn(env1, env2, Inputs[5]);
  }

  /** Production with a LibSQL URL and token but no Postgres or Upstash: still no storage. */
  lemma LibsqlIgnoredInProductionWithoutDatabase(env: Environment)
    requires NodeEnv in env && env[NodeEnv] == "production"
    requires !IsSet(env, DatabaseUrl) && !IsSet(env, UpstashUrl)
    requires LibsqlConfigured(env)
    ensures CreateProductionStorage(env) == Backend(None, None)
  {
  }

  /** Both Postgres and Upstash configured: Postgres wins. */
  lemma PostgresBeatsUpstash(env: Environment)
    requires IsSet(env, DatabaseUrl) && UpstashConfigured(env)
    ensures CreateProductionStorage(env).storage == Some(PostgresStore(env[DatabaseUrl]))
  {
  }

  /** An Upstash URL without its token, in production or not, falls through to the local file. */
  lemma UpstashWithoutTokenFallsBack(env: Environment)
    requires !IsSet(env, DatabaseUrl) && IsSet(env, UpstashUrl) && !IsSet(env, UpstashToken)
    requires !LibsqlConfigured(env)
    ensures CreateProductionStorage(env).storage == Some(LibSQLStore(LocalDbFile, None))
  {
  }
}
