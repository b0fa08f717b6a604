/**
 * `Config` of `config.py`: settings read once from the environment, the
 * defaults of the optional ones, the `ASR_ENABLED` flag, and
 * `validate_config`'s ordered presence check. The environment is a map from
 * variable names to values; a missing name is an unset variable.
 */
module AppConfig {
  import opened Common

  type Env = map<string, string>

  /** `os.getenv(name)`. */
  function GetEnv(env: Env, name: string): Option<string> {
    if name in env then Some(env[name]) else None
  }

  /** `os.getenv(name, default)`. */
  function GetEnvOr(env: Env, name: string, default: string): (v: string)
    ensures name in env ==> v == env[name]
    ensures name !in env ==> v == default
  {
    if name in env then env[name] else default
  }

  /** ASCII lower-casing of one character. */
  function LowerChar(c: char): char {
    if 'A' <= c <= 'Z' then (c as int + 32) as char else c
  }

  function Lower(s: string): (r: string)
    ensures |r| == |s| && forall i :: 0 <= i < |s| ==> r[i] == LowerChar(s[i])
  {
    if |s| == 0 then "" else [LowerChar(s[0])] + Lower(s[1..])
  }

  /** The settings as the class attributes hold them. */
  datatype Config = Config(
    telegramBotToken: Option<string>,
    triliumApiToken: Option<string>,
    triliumServerUrl: Option<string>,
    diaryParentNoteId: string,
    diaryTemplate: string,
    timezone: string,
    doubaoAppKey: Option<string>,
    doubaoAccessKey: Option<string>,
    asrEnabled: bool)

  /** The class attributes of `Config`, computed from the environment. */
  function LoadConfig(env: Env): (c: Config)
    ensures c.diaryParentNoteId == GetEnvOr(env, "DIARY_PARENT_NOTE_ID", "")
    ensures c.diaryTemplate == GetEnvOr(env, "DIARY_TEMPLATE", "")
    ensures c.timezone == GetEnvOr(env, "TIMEZONE", "Asia/Shanghai")
    ensures c.asrEnabled <==> "ASR_ENABLED" in env && Lower(env["ASR_ENABLED"]) == "true"
  {
    Config(
      GetEnv(env, "TELEGRAM_BOT_TOKEN"),
      GetEnv(env, "TRILIUM_API_TOKEN"),
      GetEnv(env, "TRILIUM_SERVER_URL"),
      GetEnvOr(env, "DIARY_PARENT_NOTE_ID", ""),
      GetEnvOr(env, "DIARY_TEMPLATE", ""),
      GetEnvOr(env, "TIMEZONE", "Asia/Shanghai"),
      GetEnv(env, "DOUBAO_APP_KEY"),
      GetEnv(env, "DOUBAO_ACCESS_KEY"),
      Lower(GetEnvOr(env, "ASR_ENABLED", "false")) == "true")
  }

  /** With nothing set, ASR is off and the optional settings take their defaults. */
  lemma EmptyEnvironmentDefaults()
    ensures var c := LoadConfig(map[]);
      && !c.asrEnabled && c.diaryParentNoteId == "" && c.diaryTemplate == "" && c.timezone == "Asia/Shanghai"
      && c.telegramBotToken.None? && c.triliumApiToken.None? && c.triliumServerUrl.None?
  {
    assert Lower("false")[0] == 'f';
  }

  /** `ASR_ENABLED` is on exactly for the four letters of "true" in any mix of cases. */
  lemma AsrEnabledAnyCase(env: Env)
    requires "ASR_ENABLED" in env
    ensures LoadConfig(env).asrEnabled <==>
      |env["ASR_ENABLED"]| == 4 && forall i :: 0 <= i < 4 ==> LowerChar(env["ASR_ENABLED"][i]) == "true"[i]
  {
    var v := env["ASR_ENABLED"];
    if |v| == 4 && forall i :: 0 <= i < 4 ==> LowerChar(v[i]) == "true"[i] {
      assert Lower(v) == "true";
    }
  }

  /** `ASR_ENABLED=True` and `ASR_ENABLED=TRUE` switch ASR on; `yes` and `1` do not. */
  lemma AsrEnabledExamples(env: Env)
    ensures LoadConfig(env["ASR_ENABLED" := "True"]).asrEnabled
    ensures LoadConfig(env["ASR_ENABLED" := "TRUE"]).asrEnabled
    ensures !LoadConfig(env["ASR_ENABLED" := "yes"]).asrEnabled
    ensures !LoadConfig(env["ASR_ENABLED" := "1"]).asrEnabled
  {
    assert Lower("True") == "true";
    assert Lower("TRUE") == "true";
  }

  /** The settings `validate_config` requires, in the order it checks them. */
  const RequiredKeys: seq<string> := ["TELEGRAM_BOT_TOKEN", "TRILIUM_API_TOKEN", "TRILIUM_SERVER_URL"]

  /** The value of required setting `i`. */
  function Required(c: Config, i: nat): Option<string>
    requires i < 3
  {
    if i == 0 then c.telegramBotToken else if i == 1 then c.triliumApiToken else c.triliumServerUrl
  }

  /** Python truthiness of a setting: set and not empty. */
  predicate IsSet(v: Option<string>) {
    v.Some? && v.value != ""
  }

  /** `validate_config`'s verdict: `True`, or the `ValueError` naming a missing setting. */
  datatype Validation = Valid | Missing(key: string, message: string)

  function ValidateConfig(c: Config): (r: Validation)
    ensures r.Valid? <==> forall i :: 0 <= i < 3 ==> IsSet(Required(c, i))
    ensures !IsSet(c.telegramBotToken) ==> r.Missing? && r.key == RequiredKeys[0]
    ensures IsSet(c.telegramBotToken) && !IsSet(c.triliumApiToken) ==> r.Missing? && r.key == RequiredKeys[1]
    ensures IsSet(c.telegramBotToken) && IsSet(c.triliumApiToken) && !IsSet(c.triliumServerUrl) ==>
      r.Missing? && r.key == RequiredKeys[2]
    ensures r.Missing? ==> r.message == r.key + " 未设置"
  {
    var missing := if !IsSet(c.telegramBotToken) then 0 else if !IsSet(c.triliumApiToken) then 1
      else if !IsSet(c.triliumServerUrl) then 2 else 3;
    assert Required(c, 0) == c.telegramBotToken && Required(c, 1) == c.triliumApiToken;
    assert Required(c, 2) == c.triliumServerUrl;
    if missing == 3 then Valid else Missing(RequiredKeys[missing], RequiredKeys[missing] + " 未设置")
  }

  /** With no settings at all, the bot token is reported first. */
  lemma NothingSetReportsBotToken()
    ensures ValidateConfig(LoadConfig(map[])).Missing?
    ensures ValidateConfig(LoadConfig(map[])).key == "TELEGRAM_BOT_TOKEN"
  {
  }
}
