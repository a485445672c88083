/**
 * The macOS trust-store adapter (`src/platform/darwin.ts`): the System keychain
 * driven through the `security` command. Only the commands' outcomes are
 * modelled; the parsing of `security find-certificate -Z` output is exact.
 */
module Darwin {
  import opened Text
  import opened Exec

  const Platform: string := "darwin"

  /** `/SHA-1\shash:\s/` matches at the start of `s`. */
  predicate StartsWithHashLabel(s: string) {
    12 <= |s| && s[..5] == "SHA-1" && IsSpace(s[5]) && s[6..11] == "hash:" && IsSpace(s[11])
  }

  /**
   * `s.replace(/SHA-1\shash:\s/g, '')`: scanning from the left, every match is
   * cut out and the scan resumes after it; all other characters are kept. No
   * character is ever added.
   */
  function StripHashLabels(s: string): (r: string)
    ensures |r| <= |s|
    ensures forall c :: multiset(r)[c] <= multiset(s)[c]
    decreases |s|
  {
    if s == [] then []
    else if StartsWithHashLabel(s) then
      assert s == s[..12] + s[12..];
      StripHashLabels(s[12..])
    else
      assert s == [s[0]] + s[1..];
      [s[0]] + StripHashLabels(s[1..])
  }

  /** Text that cannot start a label ('S' is the first letter of every match) is kept as it is. */
  lemma {:induction false} StripKeepsLabelFree(x: string, y: string)
    requires 'S' !in x
    ensures StripHashLabels(x + y) == x + StripHashLabels(y)
  {
    if x != [] {
      var s := x + y;
      assert s[0] == x[0] && !StartsWithHashLabel(s);
      assert s[1..] == x[1..] + y;
      StripKeepsLabelFree(x[1..], y);
      assert [x[0]] + x[1..] == x;
    } else {
      assert x + y == y;
    }
  }

  /**
   * The parsing chain of `getHashList` (src/platform/darwin.ts:35-38): labels
   * removed, split on '\n', empty strings dropped. No entry is empty or spans
   * two lines, and there are never more entries than lines of output.
   */
  function ParseHashList(stdout: string): (hashes: seq<string>)
    ensures forall i :: 0 <= i < |hashes| ==> hashes[i] != [] && '\n' !in hashes[i]
    ensures |hashes| <= multiset(stdout)['\n'] + 1
  {
    var stripped := StripHashLabels(stdout);
    var lines := Split(stripped, '\n');
    SplitCount(stripped, '\n');
    SplitSegmentsFree(stripped, '\n');
    var hashes := DropEmpty(lines);
    assert forall i :: 0 <= i < |hashes| ==> hashes[i] in lines;
    hashes
  }

  /** `getHashList(cn)` (src/platform/darwin.ts:26-44): nothing when `security` throws. */
  function GetHashList(result: CommandResult): (hashes: seq<string>)
    ensures result.Threw? ==> hashes == []
    ensures result.Completed? ==> hashes == ParseHashList(result.stdout)
  {
    match result
    case Completed(stdout) => ParseHashList(stdout)
    case Threw => []
  }

  /** `remove(name)` (src/platform/darwin.ts:16-25): true exactly when the delete command succeeded; never rejects. */
  function Remove(result: CommandResult): (removed: bool)
    ensures removed <==> result.Completed?
  {
    match result
    case Completed(_) => true
    case Threw => false
  }

  /** `add` (src/platform/darwin.ts:9-15): rejects exactly when `security add-trusted-cert` throws. */
  function Add(result: CommandResult): (settled: Settled)
    ensures settled == Resolved <==> result.Completed?
  {
    match result
    case Completed(_) => Resolved
    case Threw => Rejected
  }

  // ---------------------------------------------------------------------------
  // Round trip with the output of `security find-certificate -a -c cn -Z | grep ^SHA-1`

  predicate IsFingerprint(fp: string) {
    fp != [] && forall i :: 0 <= i < |fp| ==> IsUpperHexDigit(fp[i])
  }

  const HashLabel: string := "SHA-1 hash: "

  /** One "SHA-1 hash: <fingerprint>" line per certificate. */
  function SecurityOutput(fingerprints: seq<string>): string {
    if fingerprints == [] then ""
    else HashLabel + fingerprints[0] + "\n" + SecurityOutput(fingerprints[1..])
  }

  lemma {:induction false} StripSecurityOutput(fingerprints: seq<string>)
    requires forall i :: 0 <= i < |fingerprints| ==> IsFingerprint(fingerprints[i])
    ensures StripHashLabels(SecurityOutput(fingerprints)) == Lines(fingerprints)
  {
    if fingerprints != [] {
      var fp, rest := fingerprints[0], fingerprints[1..];
      var s := SecurityOutput(fingerprints);
      assert StartsWithHashLabel(s);
      assert s[12..] == (fp + "\n") + SecurityOutput(rest);
      assert 'S' !in fp + "\n" by {
        assert forall i :: 0 <= i < |fp| ==> IsUpperHexDigit(fp[i]);
      }
      StripKeepsLabelFree(fp + "\n", SecurityOutput(rest));
      StripSecurityOutput(rest);
    }
  }

  lemma FingerprintIsOneLine(fp: string)
    requires IsFingerprint(fp)
    ensures fp != [] && '\n' !in fp
  {
    assert forall i :: 0 <= i < |fp| ==> fp[i] != '\n';
  }

  /** Lines of non-empty text are read back as exactly those texts. */
  lemma ParseLines(parts: seq<string>)
    requires forall i :: 0 <= i < |parts| ==> parts[i] != [] && '\n' !in parts[i]
    ensures DropEmpty(Split(Lines(parts), '\n')) == parts
  {
    SplitLines(parts);
    DropEmptyAppend(parts, [""]);
    DropEmptyNoneEmpty(parts);
    assert DropEmpty([""]) == [];
  }

  /** The fingerprint lines of `security`'s output, once the labels are gone, parse back to the fingerprints. */
  lemma FingerprintLines(fingerprints: seq<string>)
    requires forall i :: 0 <= i < |fingerprints| ==> IsFingerprint(fingerprints[i])
    ensures DropEmpty(Split(Lines(fingerprints), '\n')) == fingerprints
  {
    forall i | 0 <= i < |fingerprints|
      ensures fingerprints[i] != [] && '\n' !in fingerprints[i]
    {
      FingerprintIsOneLine(fingerprints[i]);
    }
    ParseLines(fingerprints);
  }

  lemma ParseStripped(stdout: string, fingerprints: seq<string>)
    requires forall i :: 0 <= i < |fingerprints| ==> IsFingerprint(fingerprints[i])
    requires StripHashLabels(stdout) == Lines(fingerprints)
    ensures ParseHashList(stdout) == fingerprints
  {
    FingerprintLines(fingerprints);
  }

  /** Every fingerprint `security` prints is recovered, in order. */
  lemma ParseSecurityOutput(fingerprints: seq<string>, stdout: string)
    requires forall i :: 0 <= i < |fingerprints| ==> IsFingerprint(fingerprints[i])
    requires stdout == SecurityOutput(fingerprints)
    ensures ParseHashList(stdout) == fingerprints
  {
    StripSecurityOutput(fingerprints);
    ParseStripped(stdout, fingerprints);
  }
}
