/**
 * The Linux trust-store adapter (`src/platform/linux.ts`): PEM files in
 * `/usr/local/share/ca-certificates`, activated by `update-ca-certificates`.
 * The directory is a class whose listing the adapter's methods read and
 * change; the outcome of each shell command is an argument.
 */
module Linux {
  import opened Wrappers
  import opened Text
  import Cert

  const Platform: string := "linux"
  const Dir: string := "/usr/local/share/ca-certificates"
  const CrtSuffix: string := ".crt"

  /** `certPath(name)` (src/platform/linux.ts:11): where `add` installs the certificate called `name`. */
  function CertPath(name: string): (path: string)
    ensures EndsWith(path, CrtSuffix)
    ensures |Dir| + 1 <= |path| && path[..|Dir| + 1] == Dir + "/" && path[|Dir| + 1..] == name + CrtSuffix
  {
    var path := JoinPath(Dir, name + CrtSuffix);
    assert path[|path| - |CrtSuffix|..] == CrtSuffix;
    path
  }

  /** What reading a directory entry as a certificate gives. */
  datatype FileContent =
    | Pem(cert: Cert.Certificate)  // `readFile` and `pki.certificateFromPem` succeed
    | Unreadable                   // `readFile` rejects
    | Unparsable                   // `pki.certificateFromPem` throws

  datatype DirEntry = DirEntry(name: string, content: FileContent)

  /** Why `readCerts` or the common-name lookup threw. */
  datatype LinuxError =
    | ReadDirFailed
    | ReadFailed(path: string)
    | ParseFailed(path: string)
    | NoCommonName(path: string)
    | CopyFailed
    | UpdateFailed

  /** `file.endsWith('.crt')` (src/platform/linux.ts:17): only such entries are read. */
  predicate IsCrt(e: DirEntry) {
    EndsWith(e.name, CrtSuffix)
  }

  function PathOf(e: DirEntry): string {
    JoinPath(Dir, e.name)
  }

  /**
   * Reading one `.crt` entry and taking its common name, as both loops do:
   * the error that ends the loop, or the certificate with its common name.
   */
  function ReadEntry(e: DirEntry): (r: Result<(Cert.Certificate, string), LinuxError>)
    ensures r.Ok? <==> e.content.Pem? && Cert.GetCertCommonName(e.content.cert).Ok?
    ensures r.Ok? ==> r.value.0 == e.content.cert && Cert.GetCertCommonName(r.value.0) == Ok(r.value.1)
  {
    match e.content
    case Unreadable => Err(ReadFailed(PathOf(e)))
    case Unparsable => Err(ParseFailed(PathOf(e)))
    case Pem(cert) =>
      match Cert.GetCertCommonName(cert)
      case Err(_) => Err(NoCommonName(PathOf(e)))
      case Ok(cn) => Ok((cert, cn))
  }

  /** The entry is a readable `.crt` certificate whose common name is `cn`. */
  predicate Matches(e: DirEntry, cn: string) {
    IsCrt(e) && e.content.Pem? && Cert.GetCertCommonName(e.content.cert) == Ok(cn)
  }

  /** Every `.crt` entry is readable, parses and has a common name. */
  predicate AllReadable(entries: seq<DirEntry>) {
    forall i :: 0 <= i < |entries| && IsCrt(entries[i]) ==> ReadEntry(entries[i]).Ok?
  }

  // ---------------------------------------------------------------------------
  // getHashList

  /**
   * The loop of `getHashList` over `listing[..n]`: the fingerprints collected so
   * far, or the first error met.
   */
  function HashScan(listing: seq<DirEntry>, cn: string, sha1: Cert.Certificate -> string): (r: Result<seq<string>, LinuxError>)
    ensures r.Ok? ==> |r.value| <= |listing|
    decreases |listing|
  {
    if listing == [] then Ok([])
    else
      var e := listing[|listing| - 1];
      var prior := HashScan(listing[..|listing| - 1], cn, sha1);
      if prior.Err? || !IsCrt(e) then prior
      else
        match ReadEntry(e)
        case Err(err) => Err(err)
        case Ok((cert, name)) => if name == cn then Ok(prior.value + [sha1(cert)]) else prior
  }

  /** The fingerprints of the matching certificates, in directory order. */
  function MatchingHashes(listing: seq<DirEntry>, cn: string, sha1: Cert.Certificate -> string): seq<string>
    decreases |listing|
  {
    if listing == [] then []
    else
      var e := listing[|listing| - 1];
      MatchingHashes(listing[..|listing| - 1], cn, sha1)
        + if Matches(e, cn) then [sha1(e.content.cert)] else []
  }

  /**
   * `getHashList` fails exactly when some `.crt` entry cannot be read, parsed or
   * named, and otherwise returns the SHA-1 of every `.crt` certificate whose
   * common name is `cn`, in directory order; other entries are never read.
   */
  lemma {:induction false} HashScanMeaning(listing: seq<DirEntry>, cn: string, sha1: Cert.Certificate -> string)
    ensures HashScan(listing, cn, sha1).Ok? <==> AllReadable(listing)
    ensures HashScan(listing, cn, sha1).Ok? ==> HashScan(listing, cn, sha1).value == MatchingHashes(listing, cn, sha1)
    decreases |listing|
  {
    if listing != [] {
      var init := listing[..|listing| - 1];
      var e := listing[|listing| - 1];
      HashScanMeaning(init, cn, sha1);
      AllReadableSnoc(listing);
      if AllReadable(init) && IsCrt(e) && ReadEntry(e).Ok? {
        assert Matches(e, cn) <==> ReadEntry(e).value.1 == cn;
      }
    }
  }

  /** A listing is readable exactly when all but its last entry are and the last one is. */
  lemma AllReadableSnoc(listing: seq<DirEntry>)
    requires listing != []
    ensures var e := listing[|listing| - 1];
            AllReadable(listing) <==> AllReadable(listing[..|listing| - 1]) && (IsCrt(e) ==> ReadEntry(e).Ok?)
  {
    var init := listing[..|listing| - 1];
    assert forall i :: 0 <= i < |init| ==> init[i] == listing[i];
    if !AllReadable(init) {
      var i :| 0 <= i < |init| && IsCrt(init[i]) && !ReadEntry(init[i]).Ok?;
      assert listing[i] == init[i];
    }
  }

  /** One more turn of the `getHashList` loop, while no error has stopped it. */
  lemma HashScanExtend(listing: seq<DirEntry>, i: nat, cn: string, sha1: Cert.Certificate -> string)
    requires i < |listing|
    requires HashScan(listing[..i], cn, sha1).Ok?
    ensures var prior := HashScan(listing[..i], cn, sha1);
            var e := listing[i];
            HashScan(listing[..i + 1], cn, sha1) ==
              if !IsCrt(e) then prior
              else match ReadEntry(e)
                case Err(err) => Err(err)
                case Ok((cert, name)) => if name == cn then Ok(prior.value + [sha1(cert)]) else prior
  {
    assert listing[..i + 1][..i] == listing[..i];
  }

  /** Once the `getHashList` loop has met an error, the rest of the listing does not change it. */
  lemma {:induction false} HashScanErrorStays(listing: seq<DirEntry>, k: nat, cn: string, sha1: Cert.Certificate -> string)
    requires k <= |listing|
    requires HashScan(listing[..k], cn, sha1).Err?
    ensures HashScan(listing, cn, sha1) == HashScan(listing[..k], cn, sha1)
    decreases |listing| - k
  {
    if k < |listing| {
      assert listing[..k + 1][..k] == listing[..k];
      HashScanErrorStays(listing, k + 1, cn, sha1);
    } else {
      assert listing[..k] == listing;
    }
  }

  // ---------------------------------------------------------------------------
  // remove

  /** What one turn of the `remove` loop does with an entry. */
  datatype StepOutcome = Keep | Delete | Fail

  /**
   * One turn of the `remove` loop (src/platform/linux.ts:34-38): entries not
   * ending in ".crt" are skipped; a `.crt` entry is read, parsed and named (an
   * error ends the loop) and deleted when its common name is `cn`, unless `rm`
   * fails, which ends the loop too.
   */
  function RemoveStep(e: DirEntry, cn: string, rmFails: set<string>): (o: StepOutcome)
    ensures o == Delete <==> Matches(e, cn) && PathOf(e) !in rmFails
    ensures o == Fail <==> IsCrt(e) && (ReadEntry(e).Err? || (Matches(e, cn) && PathOf(e) in rmFails))
  {
    if !IsCrt(e) then Keep
    else
      match ReadEntry(e)
      case Err(_) => Fail
      case Ok((_, name)) =>
        if name != cn then Keep
        else if PathOf(e) in rmFails then Fail
        else Delete
  }

  /** How the `remove` loop leaves the directory: the entries kept, and whether it stopped on an error. */
  datatype Scan = Scan(kept: seq<DirEntry>, failed: bool)

  /**
   * The `remove` loop over `listing`: a matching entry is deleted unless its
   * deletion fails; the first error keeps the entry it met and every later one.
   */
  function RemoveScan(listing: seq<DirEntry>, cn: string, rmFails: set<string>): (r: Scan)
    ensures |r.kept| <= |listing|
    ensures forall x :: x in r.kept ==> x in listing
    decreases |listing|
  {
    if listing == [] then Scan([], false)
    else
      var e := listing[|listing| - 1];
      var prior := RemoveScan(listing[..|listing| - 1], cn, rmFails);
      if prior.failed then Scan(prior.kept + [e], true)
      else
        match RemoveStep(e, cn, rmFails)
        case Keep => Scan(prior.kept + [e], false)
        case Delete => prior
        case Fail => Scan(prior.kept + [e], true)
  }

  /** One more turn of the `remove` loop, while no error has stopped it. */
  lemma RemoveScanExtend(listing: seq<DirEntry>, i: nat, cn: string, rmFails: set<string>)
    requires i < |listing|
    requires !RemoveScan(listing[..i], cn, rmFails).failed
    ensures var prior := RemoveScan(listing[..i], cn, rmFails);
            RemoveScan(listing[..i + 1], cn, rmFails) ==
              match RemoveStep(listing[i], cn, rmFails)
              case Keep => Scan(prior.kept + [listing[i]], false)
              case Delete => prior
              case Fail => Scan(prior.kept + [listing[i]], true)
  {
    assert listing[..i + 1][..i] == listing[..i];
  }

  /** Once the `remove` loop has stopped on an error, every later entry is kept. */
  lemma {:induction false} RemoveScanFailureStays(listing: seq<DirEntry>, k: nat, cn: string, rmFails: set<string>)
    requires k <= |listing|
    requires RemoveScan(listing[..k], cn, rmFails).failed
    ensures RemoveScan(listing, cn, rmFails) == Scan(RemoveScan(listing[..k], cn, rmFails).kept + listing[k..], true)
    decreases |listing| - k
  {
    if k < |listing| {
      var prior := RemoveScan(listing[..k], cn, rmFails);
      assert listing[..k + 1][..k] == listing[..k];
      assert RemoveScan(listing[..k + 1], cn, rmFails) == Scan(prior.kept + [listing[k]], true);
      RemoveScanFailureStays(listing, k + 1, cn, rmFails);
      assert prior.kept + [listing[k]] + listing[k + 1..] == prior.kept + listing[k..];
    } else {
      assert listing[..k] == listing;
    }
  }

  /**
   * `remove` deletes only `.crt` certificates whose common name is `cn` and
   * keeps the other entries; when it succeeds it has read every `.crt` entry
   * and deleted every match.
   */
  lemma {:induction false} RemoveScanDeletesOnlyMatches(listing: seq<DirEntry>, cn: string, rmFails: set<string>)
    ensures multiset(RemoveScan(listing, cn, rmFails).kept) <= multiset(listing)
    ensures forall e :: e in listing && e !in RemoveScan(listing, cn, rmFails).kept ==> Matches(e, cn)
    ensures !RemoveScan(listing, cn, rmFails).failed ==>
      forall e :: e in RemoveScan(listing, cn, rmFails).kept ==> !Matches(e, cn)
    ensures !RemoveScan(listing, cn, rmFails).failed ==> AllReadable(listing)
    decreases |listing|
  {
    if listing != [] {
      var init := listing[..|listing| - 1];
      var e := listing[|listing| - 1];
      assert listing == init + [e];
      RemoveScanDeletesOnlyMatches(init, cn, rmFails);
      if IsCrt(e) && ReadEntry(e).Ok? {
        assert Matches(e, cn) <==> ReadEntry(e).value.1 == cn;
      }
      if !RemoveScan(listing, cn, rmFails).failed {
        forall i | 0 <= i < |listing| && IsCrt(listing[i])
          ensures ReadEntry(listing[i]).Ok?
        {
          if i < |init| {
            assert listing[i] == init[i];
          }
        }
      }
    }
  }

  /** After a successful `remove(cn)`, `getHashList(cn)` finds nothing. */
  lemma RemoveThenNoHashes(listing: seq<DirEntry>, cn: string, rmFails: set<string>, sha1: Cert.Certificate -> string)
    requires !RemoveScan(listing, cn, rmFails).failed
    ensures HashScan(RemoveScan(listing, cn, rmFails).kept, cn, sha1) == Ok([])
  {
    var kept := RemoveScan(listing, cn, rmFails).kept;
    RemoveScanDeletesOnlyMatches(listing, cn, rmFails);
    HashScanMeaning(kept, cn, sha1);
    forall i | 0 <= i < |kept| && IsCrt(kept[i])
      ensures ReadEntry(kept[i]).Ok?
    {
      assert kept[i] in multiset(listing);
      var j :| 0 <= j < |listing| && listing[j] == kept[i];
    }
    NoMatchingHashes(kept, cn, sha1);
  }

  lemma {:induction false} NoMatchingHashes(listing: seq<DirEntry>, cn: string, sha1: Cert.Certificate -> string)
    requires forall e :: e in listing ==> !Matches(e, cn)
    ensures MatchingHashes(listing, cn, sha1) == []
    decreases |listing|
  {
    if listing != [] {
      var init := listing[..|listing| - 1];
      assert forall e :: e in init ==> e in listing;
      NoMatchingHashes(init, cn, sha1);
      assert listing[|listing| - 1] in listing;
    }
  }

  // ---------------------------------------------------------------------------
  // add

  /**
   * `cp` onto `e.name`: any entry of that name gives way to `e`, which the
   * listing then holds once, last.
   */
  function Put(entries: seq<DirEntry>, e: DirEntry): (r: seq<DirEntry>)
    ensures e in r
    ensures r[|r| - 1] == e && forall i :: 0 <= i < |r| - 1 ==> r[i].name != e.name
    ensures forall x :: x in r && x.name != e.name ==> x in entries
    ensures forall x :: x in entries && x.name != e.name ==> x in r
    ensures forall x :: x in r && x.name == e.name ==> x == e
  {
    if entries == [] then [e]
    else if entries[0].name == e.name then Put(entries[1..], e)
    else [entries[0]] + Put(entries[1..], e)
  }

  class AnchorDir {
    /** `readdir(dir)` succeeds. */
    const listable: bool
    /** The directory's entries, in the order `readdir` lists them. */
    var entries: seq<DirEntry>

    constructor (listable: bool, entries: seq<DirEntry>)
      ensures this.listable == listable && this.entries == entries
    {
      this.listable := listable;
      this.entries := entries;
    }

    /** The outcome of `getHashList(cn)` on the current directory. */
    function HashList(cn: string, sha1: Cert.Certificate -> string): Result<seq<string>, LinuxError>
      reads this
    {
      if !listable then Err(ReadDirFailed) else HashScan(entries, cn, sha1)
    }

    /**
     * `getHashList(cn)` (src/platform/linux.ts:46-56, with `readCerts` at 13-24).
     * There is no try/catch, so every error rejects the returned promise.
     */
    method GetHashList(cn: string, sha1: Cert.Certificate -> string) returns (r: Result<seq<string>, LinuxError>)
      ensures r == HashList(cn, sha1)
      ensures r.Ok? <==> listable && AllReadable(entries)
      ensures r.Ok? ==> r.value == MatchingHashes(entries, cn, sha1)
    {
      HashScanMeaning(entries, cn, sha1);
      if !listable {
        return Err(ReadDirFailed);
      }
      var files := entries;
      var result: seq<string> := [];
      for i := 0 to |files|
        invariant HashScan(files[..i], cn, sha1) == Ok(result)
      {
        HashScanExtend(files, i, cn, sha1);
        var file := files[i];
        if IsCrt(file) {
          var read := ReadEntry(file);
          if read.Err? {
            HashScanErrorStays(files, i + 1, cn, sha1);
            return Err(read.error);
          }
          var (cert, name) := read.value;
          if cn == name {
            result := result + [sha1(cert)];
          }
        }
      }
      assert files[..|files|] == files;
      return Ok(result);
    }

    /**
     * `remove(cn)` (src/platform/linux.ts:32-45): every `.crt` entry is read in
     * turn and, when its common name is `cn`, deleted with `sudo rm`; then
     * `update-ca-certificates` runs. Any error ends the loop and makes the
     * result false, leaving the deletions already done; nothing is thrown.
     * `rmFails` are the paths whose deletion fails; `updateSucceeds` is the
     * outcome of `update-ca-certificates`.
     */
    method Remove(cn: string, rmFails: set<string>, updateSucceeds: bool) returns (removed: bool)
      modifies this
      ensures listable ==> entries == RemoveScan(old(entries), cn, rmFails).kept
      ensures listable ==> (removed <==> !RemoveScan(old(entries), cn, rmFails).failed && updateSucceeds)
      ensures !listable ==> entries == old(entries) && !removed
    {
      if !listable {
        return false;
      }
      var files := entries;
      var kept: seq<DirEntry> := [];
      for i := 0 to |files|
        invariant entries == kept + files[i..]
        invariant RemoveScan(files[..i], cn, rmFails) == Scan(kept, false)
      {
        var failed;
        kept, failed := RemoveTurn(files, i, kept, cn, rmFails);
        if failed {
          RemoveScanFailureStays(files, i + 1, cn, rmFails);
          return false;
        }
      }
      assert files[..|files|] == files;
      return updateSucceeds;
    }

    /**
     * One turn of the `remove` loop on `files[i]`, all earlier entries done:
     * the entry is deleted, kept, or the loop stops on it.
     */
    method RemoveTurn(files: seq<DirEntry>, i: nat, kept: seq<DirEntry>, cn: string, rmFails: set<string>)
      returns (kept': seq<DirEntry>, failed: bool)
      requires i < |files|
      requires entries == kept + files[i..]
      requires RemoveScan(files[..i], cn, rmFails) == Scan(kept, false)
      modifies this
      ensures RemoveScan(files[..i + 1], cn, rmFails) == Scan(kept', failed)
      ensures entries == kept' + files[i + 1..]
    {
      var file := files[i];
      var step := RemoveStep(file, cn, rmFails);
      RemoveScanExtend(files, i, cn, rmFails);
      kept', failed := kept, step == Fail;
      if step == Keep || step == Fail {
        kept' := kept + [file];
      }
      if step == Delete {
        entries := kept' + files[i + 1..];
      } else {
        assert files[i..] == [file] + files[i + 1..];
      }
    }

    /**
     * `add({path, name})` (src/platform/linux.ts:28-31): `sudo cp` copies the
     * certificate to `certPath(name)`, replacing any entry of that name, then
     * `update-ca-certificates` runs. A failing copy rejects with the directory
     * unchanged; a failing update rejects after the copy.
     */
    method Add(name: string, content: FileContent, cpSucceeds: bool, updateSucceeds: bool)
      returns (settled: Result<(), LinuxError>)
      modifies this
      ensures !cpSucceeds ==> entries == old(entries) && settled == Err(CopyFailed)
      ensures cpSucceeds ==> entries == Put(old(entries), DirEntry(name + CrtSuffix, content))
      ensures cpSucceeds ==> (settled.Ok? <==> updateSucceeds)
      ensures cpSucceeds ==> entries[|entries| - 1].content == content
                             && PathOf(entries[|entries| - 1]) == CertPath(name)
    {
      if !cpSucceeds {
        return Err(CopyFailed);
      }
      entries := Put(entries, DirEntry(name + CrtSuffix, content));
      if !updateSucceeds {
        return Err(UpdateFailed);
      }
      return Ok(());
    }
  }
}
