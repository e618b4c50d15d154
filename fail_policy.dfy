/** The `--fail-on` option shared by the checking scripts: its parsing, and the
    rule deciding whether a report makes the run fail. */
module FailPolicy {
  import opened Wrappers
  import opened Text

  datatype FailLevel = FailNone | FailWarn | FailError

  /** The option value naming each level. */
  function LevelName(level: FailLevel): string
  {
    match level
    case FailNone => "none"
    case FailWarn => "warn"
    case FailError => "error"
  }

  /** `normalizeFailOn`: the level named by the trimmed, lowercased value, if any. */
  function NormalizeFailOn(value: string): (r: Option<FailLevel>)
    ensures r.Some? <==> Lower(Trim(value)) in {"none", "warn", "error"}
    ensures r.Some? ==> LevelName(r.value) == Lower(Trim(value))
  {
    var v := Lower(Trim(value));
    if v == "none" then Some(FailNone)
    else if v == "warn" then Some(FailWarn)
    else if v == "error" then Some(FailError)
    else None
  }

  /** Every level is read back from its own name. */
  lemma NormalizeFailOnName(level: FailLevel)
    ensures NormalizeFailOn(LevelName(level)) == Some(level)
  {
    LevelNameNormal(level);
  }

  /** A level's name is already trimmed and in lower case. */
  lemma LevelNameNormal(level: FailLevel)
    ensures Lower(Trim(LevelName(level))) == LevelName(level)
  {
    var n := LevelName(level);
    forall i | 0 <= i < |n|
      ensures 'a' <= n[i] <= 'z'
    {
      match level
      case FailNone => assert n == ['n', 'o', 'n', 'e'];
      case FailWarn => assert n == ['w', 'a', 'r', 'n'];
      case FailError => assert n == ['e', 'r', 'r', 'o', 'r'];
    }
    LowerWord(n);
  }

  /** Leading whitespace does not change the level read. */
  lemma NormalizeFailOnLoose(value: string, k: nat)
    requires k <= |value| && AllSpace(value[..k])
    ensures NormalizeFailOn(value[k..]) == NormalizeFailOn(value)
  {
    TrimAfterSpacePrefix(value, k);
  }

  /** The rule shared by every script's `shouldFail`, given the count that
      counts as errors and the count that counts as warnings. */
  function ShouldFail(level: FailLevel, errors: nat, warnings: nat): (r: bool)
    ensures level == FailNone ==> !r
    ensures level == FailWarn ==> (r <==> errors + warnings > 0)
    ensures level == FailError ==> (r <==> errors > 0)
  {
    match level
    case FailNone => false
    case FailWarn => errors + warnings > 0
    case FailError => errors > 0
  }

  /** `warn` is the stricter policy: whatever fails under `error` fails under `warn`,
      and a report without errors or warnings passes under both. */
  lemma WarnStricterThanError(errors: nat, warnings: nat)
    ensures ShouldFail(FailError, errors, warnings) ==> ShouldFail(FailWarn, errors, warnings)
    ensures errors + warnings == 0 ==> !ShouldFail(FailWarn, errors, warnings) && !ShouldFail(FailError, errors, warnings)
  {
  }
}
