/**
 * The Windows trust-store adapter (`src/platform/win32.ts`): the current user's
 * root store driven through `certutil`. Only the commands' outcomes are
 * modelled; the parsing of `certutil -verifystore ... | findstr sha1` output is
 * exact up to the ASCII-only upper-casing.
 */
module Win32 {
  import opened Text
  import opened Exec

  const Platform: string := "win32"

  /** The characters `.` does not match in an ECMAScript regular expression. */
  predicate IsLineTerminator(c: char) {
    c == '\n' || c == '\r' || c == '\U{2028}' || c == '\U{2029}'
  }

  /** The index of the first line terminator in `s`, or `|s|` when there is none. */
  function RunLength(s: string): (n: nat)
    ensures n <= |s|
    ensures forall i :: 0 <= i < n ==> !IsLineTerminator(s[i])
    ensures n < |s| ==> IsLineTerminator(s[n])
  {
    if s == [] || IsLineTerminator(s[0]) then 0 else 1 + RunLength(s[1..])
  }

  /** `\(sha1\):\s` matches at index `k` of `s`. */
  predicate Sha1TagAt(s: string, k: int) {
    0 <= k && k + 8 <= |s|
    && s[k] == '(' && s[k + 1] == 's' && s[k + 2] == 'h' && s[k + 3] == 'a'
    && s[k + 4] == '1' && s[k + 5] == ')' && s[k + 6] == ':' && IsSpace(s[k + 7])
  }

  /** The largest `j <= k` at which the tag matches, or -1 when there is none. */
  function LastTag(s: string, k: int): (r: int)
    ensures r == -1 || 0 <= r <= k
    ensures r == -1 ==> forall j :: 0 <= j <= k ==> !Sha1TagAt(s, j)
    ensures 0 <= r ==> Sha1TagAt(s, r) && forall j :: r < j <= k ==> !Sha1TagAt(s, j)
    decreases k + 1
  {
    if k < 0 then -1
    else if Sha1TagAt(s, k) then k
    else LastTag(s, k - 1)
  }

  /**
   * `s.replace(/.*\(sha1\):\s/, '')`. The match is the leftmost one: it starts
   * at the beginning of the first line-terminator-free run of `s` that can reach
   * a tag, and since `.*` is greedy it ends after the last tag reachable from
   * there. Only that one match is removed; everything else is kept.
   */
  function StripThroughTag(s: string): (r: string)
    ensures |r| <= |s|
    decreases |s|
  {
    var n := RunLength(s);
    var k := LastTag(s, n);
    if 0 <= k then s[k + 8..]
    else if n == |s| then s
    else s[..n + 1] + StripThroughTag(s[n + 1..])
  }

  /** One line of output: tag and prefix removed, then every `[\s\r]`, then upper-cased. */
  function NormalizeLine(line: string): (r: string)
    ensures forall i :: 0 <= i < |r| ==> !IsSpace(r[i]) && !IsLowerAscii(r[i])
  {
    var bare := RemoveSpaces(StripThroughTag(line));
    var r := ToUpperAscii(bare);
    assert forall i :: 0 <= i < |r| ==> !IsSpace(r[i]) by {
      forall i | 0 <= i < |r|
        ensures !IsSpace(r[i])
      {
        assert bare[i] in bare;
      }
    }
    r
  }

  function NormalizeLines(lines: seq<string>): (r: seq<string>)
    ensures |r| == |lines|
    ensures forall i :: 0 <= i < |r| ==> r[i] == NormalizeLine(lines[i])
  {
    seq(|lines|, i requires 0 <= i < |lines| => NormalizeLine(lines[i]))
  }

  /**
   * The parsing chain of `getHashList` (src/platform/win32.ts:29-37): split on
   * '\n', each line normalized, empty strings dropped. No entry is empty, holds
   * white space or holds a lower-case letter, and there are never more entries
   * than lines of output.
   */
  function ParseHashList(stdout: string): (hashes: seq<string>)
    ensures forall i :: 0 <= i < |hashes| ==> hashes[i] != []
    ensures forall i, j :: 0 <= i < |hashes| && 0 <= j < |hashes[i]| ==>
      !IsSpace(hashes[i][j]) && !IsLowerAscii(hashes[i][j])
    ensures |hashes| <= multiset(stdout)['\n'] + 1
  {
    var lines := Split(stdout, '\n');
    SplitCount(stdout, '\n');
    var normalized := NormalizeLines(lines);
    var hashes := DropEmpty(normalized);
    assert forall i :: 0 <= i < |hashes| ==> hashes[i] in normalized;
    hashes
  }

  /** `getHashList(cn)` (src/platform/win32.ts:21-42): nothing when `certutil` throws. */
  function GetHashList(result: CommandResult): (hashes: seq<string>)
    ensures result.Threw? ==> hashes == []
    ensures result.Completed? ==> hashes == ParseHashList(result.stdout)
  {
    match result
    case Completed(stdout) => ParseHashList(stdout)
    case Threw => []
  }

  /** `remove(name)` (src/platform/win32.ts:12-20): true exactly when `certutil -delstore` succeeded; never rejects. */
  function Remove(result: CommandResult): (removed: bool)
    ensures removed <==> result.Completed?
  {
    match result
    case Completed(_) => true
    case Threw => false
  }

  /**
   * `add` (src/platform/win32.ts:9-11): `certutil -addstore` is started with
   * `exec` and neither awaited nor checked, so `add` resolves whatever the
   * command does.
   */
  function Add(result: CommandResult): (settled: Settled)
    ensures settled == Resolved
  {
    Resolved
  }

  // ---------------------------------------------------------------------------
  // Properties of the per-line rule

  /** A tag inside a suffix of `s` is a tag of `s`. */
  lemma TagInSuffix(s: string, d: nat, k: int)
    requires d <= |s|
    ensures Sha1TagAt(s[d..], k) ==> Sha1TagAt(s, d + k)
  {
  }

  /** A line without the tag loses nothing but its white space and its case. */
  lemma {:induction false} StripWithoutTag(s: string)
    requires forall k :: !Sha1TagAt(s, k)
    ensures StripThroughTag(s) == s
    decreases |s|
  {
    var n := RunLength(s);
    var k := LastTag(s, n);
    assert !Sha1TagAt(s, k);
    assert k == -1;
    if n < |s| {
      var rest := s[n + 1..];
      forall k
        ensures !Sha1TagAt(rest, k)
      {
        TagInSuffix(s, n + 1, k);
      }
      StripWithoutTag(rest);
      assert StripThroughTag(s) == s[..n + 1] + StripThroughTag(rest);
      assert s[..n + 1] + rest == s;
    }
  }

  /** The tag as `certutil` prints it: "(sha1):" and one space. */
  const Tag: string := "(sha1): "

  predicate NoLineTerminator(s: string) {
    forall i :: 0 <= i < |s| ==> !IsLineTerminator(s[i])
  }

  predicate NoParen(s: string) {
    forall i :: 0 <= i < |s| ==> s[i] != '('
  }

  lemma TagFacts()
    ensures |Tag| == 8 && Sha1TagAt(Tag, 0)
    ensures NoLineTerminator(Tag) && NoParen(Tag[1..])
  {
  }

  lemma NoLineTerminatorAppend(a: string, b: string)
    requires NoLineTerminator(a) && NoLineTerminator(b)
    ensures NoLineTerminator(a + b)
  {
  }

  lemma NoParenAppend(a: string, b: string)
    requires NoParen(a) && NoParen(b)
    ensures NoParen(a + b)
  {
  }

  /** A run of non-terminators in front of `b` lengthens the first run by its length. */
  lemma {:induction false} RunLengthAppend(a: string, b: string)
    requires NoLineTerminator(a)
    ensures RunLength(a + b) == |a| + RunLength(b)
  {
    if a != [] {
      assert (a + b)[1..] == a[1..] + b;
      RunLengthAppend(a[1..], b);
    } else {
      assert a + b == b;
    }
  }

  /** A tag at the head of `b` is a tag of `a + b`, at index `|a|`. */
  lemma TagAfter(a: string, b: string)
    requires Sha1TagAt(b, 0)
    ensures Sha1TagAt(a + b, |a|)
  {
    var s := a + b;
    assert s[|a|] == b[0] && s[|a| + 1] == b[1] && s[|a| + 2] == b[2] && s[|a| + 3] == b[3];
    assert s[|a| + 4] == b[4] && s[|a| + 5] == b[5] && s[|a| + 6] == b[6] && s[|a| + 7] == b[7];
  }

  /** No tag starts inside a '('-free suffix. */
  lemma NoTagAfter(s: string, m: nat, k: int)
    requires m < |s| && NoParen(s[m + 1..])
    ensures forall j :: m < j <= k ==> !Sha1TagAt(s, j)
  {
    forall j | m < j <= k && j < |s|
      ensures s[j] != '('
    {
      assert s[j] == s[m + 1..][j - m - 1];
    }
  }

  /** The first run of such a line ends at its '\r'. */
  lemma LabelledRun(prefix: string, text: string)
    requires NoLineTerminator(prefix) && NoLineTerminator(text)
    ensures RunLength(prefix + Tag + text + ['\r']) == |prefix| + 8 + |text|
  {
    TagFacts();
    NoLineTerminatorAppend(prefix, Tag);
    NoLineTerminatorAppend(prefix + Tag, text);
    var body := prefix + Tag + text;
    RunLengthAppend(body, ['\r']);
    assert RunLength(['\r']) == 0;
    assert |body| == |prefix| + 8 + |text|;
  }

  /** The last tag such a line has before its '\r' is the one after the prefix. */
  lemma LabelledLastTag(prefix: string, text: string, s: string)
    requires NoParen(text)
    requires s == prefix + Tag + text + ['\r']
    ensures LastTag(s, |prefix| + 8 + |text|) == |prefix|
  {
    TagFacts();
    var m := |prefix|;
    assert s == prefix + (Tag + text + ['\r']);
    TagAfter(prefix, Tag + text + ['\r']);
    NoParenAppend(Tag[1..], text);
    NoParenAppend(Tag[1..] + text, ['\r']);
    assert s[m + 1..] == Tag[1..] + text + ['\r'];
    NoTagAfter(s, m, m + 8 + |text|);
    LastTagIs(s, m + 8 + |text|, m);
  }

  /**
   * A line "<prefix>(sha1): <text>\r" whose prefix holds no line terminator and
   * whose text holds no '(' or line terminator loses everything through the
   * tag: the text is what is left, even when the prefix holds tags of its own.
   */
  lemma StripLabelledLine(prefix: string, text: string)
    requires NoLineTerminator(prefix)
    requires NoLineTerminator(text) && NoParen(text)
    ensures StripThroughTag(prefix + Tag + text + ['\r']) == text + ['\r']
  {
    var s := prefix + Tag + text + ['\r'];
    LabelledRun(prefix, text);
    LabelledLastTag(prefix, text, s);
    assert s[|prefix| + 8..] == text + ['\r'];
  }

  lemma {:induction false} RunLengthIs(s: string, n: nat)
    requires n <= |s|
    requires forall i :: 0 <= i < n ==> !IsLineTerminator(s[i])
    requires n < |s| ==> IsLineTerminator(s[n])
    ensures RunLength(s) == n
  {
    if n > 0 {
      RunLengthIs(s[1..], n - 1);
    }
  }

  lemma {:induction false} LastTagIs(s: string, k: int, m: int)
    requires 0 <= m <= k
    requires Sha1TagAt(s, m)
    requires forall j :: m < j <= k ==> !Sha1TagAt(s, j)
    ensures LastTag(s, k) == m
    decreases k
  {
    if m < k {
      LastTagIs(s, k - 1, m);
    }
  }

  // ---------------------------------------------------------------------------
  // Round trip with the output of `certutil -verifystore -user root cn | findstr sha1`

  /** One "<prefix>(sha1): <hash text>" line as `certutil` prints it. */
  datatype HashLine = HashLine(prefix: string, text: string)

  /**
   * The hash text is hexadecimal digits in either case, possibly spaced: no
   * line terminator, no '(' and at least one character that is not white space.
   */
  predicate IsHashLine(h: HashLine) {
    NoLineTerminator(h.prefix) && NoLineTerminator(h.text) && NoParen(h.text)
    && exists i :: 0 <= i < |h.text| && !IsSpace(h.text[i])
  }

  /** The line of `h`, ended by the '\r' of a Windows line break. */
  function LineOf(h: HashLine): string {
    h.prefix + Tag + h.text + ['\r']
  }

  function CertutilLines(entries: seq<HashLine>): (lines: seq<string>)
    ensures |lines| == |entries|
    ensures forall i :: 0 <= i < |lines| ==> lines[i] == LineOf(entries[i])
  {
    seq(|entries|, i requires 0 <= i < |entries| => LineOf(entries[i]))
  }

  /** The fingerprint a hash text stands for: its digits without spaces, upper-cased. */
  function Fingerprint(text: string): string {
    ToUpperAscii(RemoveSpaces(text))
  }

  /** A hash line normalizes to the fingerprint of its hash text. */
  lemma NormalizeHashLine(h: HashLine)
    requires IsHashLine(h)
    ensures NormalizeLine(LineOf(h)) == Fingerprint(h.text)
    ensures Fingerprint(h.text) != []
  {
    StripLabelledLine(h.prefix, h.text);
    RemoveSpacesAppend(h.text, ['\r']);
    assert RemoveSpaces(['\r']) == [];
    assert h.text + ['\r'] + [] == h.text + ['\r'];
    FingerprintNonEmpty(h.text);
  }

  /** Text with a character that is not white space keeps a fingerprint. */
  lemma FingerprintNonEmpty(text: string)
    requires exists i :: 0 <= i < |text| && !IsSpace(text[i])
    ensures Fingerprint(text) != []
  {
    var i :| 0 <= i < |text| && !IsSpace(text[i]);
    assert text[i] in RemoveSpaces(text);
  }

  lemma NormalizeEmptyLine()
    ensures NormalizeLine("") == ""
  {
    assert LastTag("", 0) == -1;
  }

  lemma HashLinesAreLines(entries: seq<HashLine>)
    requires forall i :: 0 <= i < |entries| ==> IsHashLine(entries[i])
    ensures forall i :: 0 <= i < |entries| ==> '\n' !in CertutilLines(entries)[i]
  {
    TagFacts();
    forall i | 0 <= i < |entries|
      ensures '\n' !in CertutilLines(entries)[i]
    {
      var h := entries[i];
      NoLineTerminatorAppend(h.prefix, Tag);
      NoLineTerminatorAppend(h.prefix + Tag, h.text);
      var body := h.prefix + Tag + h.text;
      assert forall k :: 0 <= k < |LineOf(h)| ==> LineOf(h)[k] != '\n' by {
        forall k | 0 <= k < |LineOf(h)|
          ensures LineOf(h)[k] != '\n'
        {
          if k < |body| {
            assert LineOf(h)[k] == body[k];
          }
        }
      }
    }
  }

  /** The fingerprints of the hashes `certutil` prints, in order. */
  function Fingerprints(entries: seq<HashLine>): (fps: seq<string>)
    ensures |fps| == |entries|
  {
    seq(|entries|, i requires 0 <= i < |entries| => Fingerprint(entries[i].text))
  }

  /** Each line `certutil` prints for a hash normalizes to that hash's fingerprint, which is never empty. */
  lemma NormalizeCertutilLines(entries: seq<HashLine>)
    requires forall i :: 0 <= i < |entries| ==> IsHashLine(entries[i])
    ensures NormalizeLines(CertutilLines(entries)) == Fingerprints(entries)
    ensures forall i :: 0 <= i < |entries| ==> Fingerprints(entries)[i] != []
  {
    var normalized, fps := NormalizeLines(CertutilLines(entries)), Fingerprints(entries);
    forall i | 0 <= i < |entries|
      ensures normalized[i] == fps[i] && fps[i] != []
    {
      NormalizeHashLine(entries[i]);
    }
  }

  /** Every hash `certutil` prints is recovered, in order, as an upper-case fingerprint without spaces. */
  lemma ParseCertutilOutput(entries: seq<HashLine>, stdout: string)
    requires forall i :: 0 <= i < |entries| ==> IsHashLine(entries[i])
    requires stdout == Lines(CertutilLines(entries))
    ensures ParseHashList(stdout) == Fingerprints(entries)
  {
    var lines := CertutilLines(entries);
    HashLinesAreLines(entries);
    SplitLines(lines);
    NormalizeEmptyLine();
    NormalizeCertutilLines(entries);
    var fps := Fingerprints(entries);
    assert NormalizeLines(lines + [""]) == fps + [""];
    DropEmptyAppend(fps, [""]);
    DropEmptyNoneEmpty(fps);
    assert DropEmpty([""]) == [];
  }
}
