/**
 * The key-format check and the test gating of `asr/test_asr_connection.py`.
 * Python's Unicode `str.isdigit` per character is the parameter `isDigit`;
 * the live connection test arrives as its outcome.
 */
module AsrKeyCheck {
  import opened Common

  /** `s.isdigit()`: non-empty, every character a digit. */
  predicate AllDigitChars(isDigit: char -> bool, s: string) {
    |s| > 0 && forall i :: 0 <= i < |s| ==> isDigit(s[i])
  }

  const PrefixIssue: string := "❌ APP_KEY不应包含'api-key-'前缀"
  const PrefixHint: string := "   正确格式应该是纯数字，例如：123456789"
  const DigitsIssue: string := "❌ APP_KEY应该是纯数字"
  const DigitsHint: string := "   当前包含非数字字符"
  const LengthIssue: string := "⚠️  APP_KEY长度异常"
  const AccessKeyIssue: string := "⚠️  ACCESS_KEY长度可能过短"

  /** The hint printed under a bad APP_KEY length, naming the length. */
  function LengthHint(n: nat): string {
    "   通常APP_KEY是9-12位数字，当前长度：" + NatToString(n)
  }

  predicate HasApiKeyPrefix(appKey: string) {
    StartsWith(appKey, "api-key-")
  }

  predicate BadAppKeyLength(appKey: string) {
    |appKey| < 8 || |appKey| > 15
  }

  predicate ShortAccessKey(accessKey: string) {
    |accessKey| < 20
  }

  /** No rule of the format check fires. */
  predicate KeysLookRight(isDigit: char -> bool, appKey: string, accessKey: string) {
    !HasApiKeyPrefix(appKey) && AllDigitChars(isDigit, appKey) && !BadAppKeyLength(appKey) && !ShortAccessKey(accessKey)
  }

  /**
   * `test_api_key_format` with both keys set: the issue lines, rule by rule,
   * and the verdict, which holds exactly when no rule fired.
   */
  method ApiKeyFormat(isDigit: char -> bool, appKey: string, accessKey: string) returns (ok: bool, issues: seq<string>)
    ensures ok <==> |issues| == 0
    ensures ok <==> KeysLookRight(isDigit, appKey, accessKey)
    ensures PrefixIssue in issues <==> HasApiKeyPrefix(appKey)
    ensures DigitsIssue in issues <==> !AllDigitChars(isDigit, appKey)
    ensures LengthIssue in issues <==> BadAppKeyLength(appKey)
    ensures AccessKeyIssue in issues <==> ShortAccessKey(accessKey)
    ensures BadAppKeyLength(appKey) ==> LengthHint(|appKey|) in issues
  {
    issues := [];
    if StartsWith(appKey, "api-key-") {
      issues := issues + [PrefixIssue, PrefixHint];
    }
    var digits := AllDigitChars(isDigit, appKey);
    if !digits {
      issues := issues + [DigitsIssue, DigitsHint];
    }
    if |appKey| < 8 || |appKey| > 15 {
      issues := issues + [LengthIssue, LengthHint(|appKey|)];
    }
    if |accessKey| < 20 {
      issues := issues + [AccessKeyIssue];
    }
    ok := |issues| == 0;
  }

  /** An empty APP_KEY is flagged both as not numeric and as too short. */
  lemma EmptyAppKeyFlagged(isDigit: char -> bool, accessKey: string)
    ensures !AllDigitChars(isDigit, "") && BadAppKeyLength("")
    ensures !KeysLookRight(isDigit, "", accessKey)
  {
  }

  /** A prefixed key can never pass, whatever the digits. */
  lemma PrefixedKeyFails(isDigit: char -> bool, rest: string, accessKey: string)
    ensures !KeysLookRight(isDigit, "api-key-" + rest, accessKey)
  {
    assert ("api-key-" + rest)[..8] == "api-key-";
  }

  /** How the test tool ends; `Crashed` is the error its entry point catches and prints. */
  datatype Summary = AsrDisabled | Crashed | FormatRejected | ConnectionFailed | AllPassed

  /**
   * `main`: nothing runs when ASR is off; the connection is tried only after
   * the format check passed. An unset key (`None`) makes the format check
   * raise while it prints the keys, before any rule runs: slicing a missing
   * ACCESS_KEY or taking the length of a missing APP_KEY. `connectionWorks`
   * is what the live test would report.
   */
  method RunChecks(asrEnabled: bool, isDigit: char -> bool, appKey: Option<string>, accessKey: Option<string>,
                   connectionWorks: bool)
    returns (summary: Summary, triedConnection: bool)
    ensures !asrEnabled <==> summary == AsrDisabled
    ensures summary == Crashed <==> asrEnabled && (appKey.None? || accessKey.None?)
    ensures triedConnection <==>
      asrEnabled && appKey.Some? && accessKey.Some? && KeysLookRight(isDigit, appKey.value, accessKey.value)
    ensures summary == AllPassed <==> triedConnection && connectionWorks
    ensures summary == FormatRejected <==>
      asrEnabled && appKey.Some? && accessKey.Some? && !KeysLookRight(isDigit, appKey.value, accessKey.value)
  {
    if !asrEnabled {
      return AsrDisabled, false;
    }
    if accessKey.None? || appKey.None? {
      return Crashed, false;
    }
    var formatOk, _ := ApiKeyFormat(isDigit, appKey.value, accessKey.value);
    var connected := false;
    triedConnection := false;
    if formatOk {
      triedConnection := true;
      connected := connectionWorks;
    }
    if formatOk && connected {
      summary := AllPassed;
    } else if formatOk {
      summary := ConnectionFailed;
    } else {
      summary := FormatRejected;
    }
  }
}
