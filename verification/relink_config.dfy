/** load_config of the re-link job: three settings from the environment and
    four from Secret Manager, all stripped of surrounding whitespace; six of
    them are required. */
module RelinkConfig {
  import opened Text
  import opened Base

  datatype Config = Config(
    hireUsername: string, hirePassword: string, dbUser: string, dbPass: string,
    dbName: string, dbConnectionName: string, dates: string)

  /** The ValueError's message. */
  const MissingValues := "Missing required configuration values"

  /** `os.getenv(name, "").strip()`. */
  function EnvSetting(env: map<string, string>, name: string): string
  {
    if name in env then Strip(env[name]) else ""
  }

  /** get_secret: the decoded payload, stripped; an access error is re-raised.
      `secret(id)` is what Secret Manager gave for the secret's latest
      version. */
  function SecretSetting(secret: string -> Result<string>, id: string): (r: Result<string>)
  {
    match secret(id)
    case Err(e) => Err(e)
    case Ok(payload) => Ok(Strip(payload))
  }

  /** The six settings `all([...])` checks are non-empty. */
  predicate Complete(c: Config)
  {
    c.hireUsername != "" && c.hirePassword != "" && c.dbUser != "" && c.dbPass != ""
    && c.dbName != "" && c.dbConnectionName != ""
  }

  /** The settings once every secret was read. */
  function Settings(env: map<string, string>, pw: string, user: string, pass: string, name: string): Config
  {
    Config(EnvSetting(env, "HIRE_USERNAME"), pw, user, pass, name,
      EnvSetting(env, "DB_CONNECTION_NAME"), EnvSetting(env, "DATES"))
  }

  /** load_config: the secrets are read in order and the first that fails
      raises; then a missing required setting raises ValueError. */
  function LoadConfig(env: map<string, string>, secret: string -> Result<string>): Result<Config>
  {
    var pw := SecretSetting(secret, "hire-password");
    var user := SecretSetting(secret, "db-user");
    var pass := SecretSetting(secret, "db-password");
    var name := SecretSetting(secret, "db-name");
    if pw.Err? then Err(pw.error)
    else if user.Err? then Err(user.error)
    else if pass.Err? then Err(pass.error)
    else if name.Err? then Err(name.error)
    else
      var cfg := Settings(env, pw.value, user.value, pass.value, name.value);
      if Complete(cfg) then Ok(cfg) else Err(MissingValues)
  }

  /** Secrets were all read, and every required setting, once stripped, is
      non-empty, exactly when loading succeeds; the settings are then the
      stripped values. */
  lemma LoadConfigSucceeds(env: map<string, string>, secret: string -> Result<string>)
    ensures LoadConfig(env, secret).Ok? <==>
      && secret("hire-password").Ok? && secret("db-user").Ok?
      && secret("db-password").Ok? && secret("db-name").Ok?
      && EnvSetting(env, "HIRE_USERNAME") != "" && EnvSetting(env, "DB_CONNECTION_NAME") != ""
      && Strip(secret("hire-password").value) != "" && Strip(secret("db-user").value) != ""
      && Strip(secret("db-password").value) != "" && Strip(secret("db-name").value) != ""
    ensures LoadConfig(env, secret).Ok? ==>
      var c := LoadConfig(env, secret).value;
      && Complete(c)
      && c.hirePassword == Strip(secret("hire-password").value)
      && c.dbUser == Strip(secret("db-user").value)
      && c.dbPass == Strip(secret("db-password").value)
      && c.dbName == Strip(secret("db-name").value)
      && c.hireUsername == EnvSetting(env, "HIRE_USERNAME")
      && c.dbConnectionName == EnvSetting(env, "DB_CONNECTION_NAME")
      && c.dates == EnvSetting(env, "DATES")
  {
  }

  /** A failure is the first failing secret's error, or the ValueError when
      every secret was read. */
  lemma LoadConfigFails(env: map<string, string>, secret: string -> Result<string>)
    ensures secret("hire-password").Err? ==> LoadConfig(env, secret) == Err(secret("hire-password").error)
    ensures secret("hire-password").Ok? && secret("db-user").Err? ==>
      LoadConfig(env, secret) == Err(secret("db-user").error)
    ensures secret("hire-password").Ok? && secret("db-user").Ok? && secret("db-password").Err? ==>
      LoadConfig(env, secret) == Err(secret("db-password").error)
    ensures (secret("hire-password").Ok? && secret("db-user").Ok? && secret("db-password").Ok?
      && secret("db-name").Err?) ==> LoadConfig(env, secret) == Err(secret("db-name").error)
    ensures (secret("hire-password").Ok? && secret("db-user").Ok? && secret("db-password").Ok?
      && secret("db-name").Ok? && LoadConfig(env, secret).Err?) ==>
      LoadConfig(env, secret) == Err(MissingValues)
  {
  }

  /** Only the two required environment settings decide whether loading
      succeeds. */
  lemma RequiredEnvDecides(env: map<string, string>, other: map<string, string>, secret: string -> Result<string>)
    requires EnvSetting(other, "HIRE_USERNAME") == EnvSetting(env, "HIRE_USERNAME")
    requires EnvSetting(other, "DB_CONNECTION_NAME") == EnvSetting(env, "DB_CONNECTION_NAME")
    ensures LoadConfig(other, secret).Ok? == LoadConfig(env, secret).Ok?
  {
    LoadConfigSucceeds(env, secret);
    LoadConfigSucceeds(other, secret);
  }

  /** DATES is optional: whatever it holds, or whether it is set at all,
      does not decide whether loading succeeds. */
  lemma DatesOptional(env: map<string, string>, secret: string -> Result<string>, dates: string)
    ensures LoadConfig(env["DATES" := dates], secret).Ok? == LoadConfig(env, secret).Ok?
    ensures LoadConfig(env - {"DATES"}, secret).Ok? == LoadConfig(env, secret).Ok?
  {
    assert "DATES" != "HIRE_USERNAME" && "DATES" != "DB_CONNECTION_NAME";
    RequiredEnvDecides(env, env["DATES" := dates], secret);
    RequiredEnvDecides(env, env - {"DATES"}, secret);
  }
}
