/**
 * The certificate lifecycle of `TrustedCert` (src/lib/trusted-cert.ts): a CA
 * created on first use and a leaf certificate signed by it, both kept as PEM
 * files in one directory, and the trust check against the platform's trust
 * store.
 *
 * The directory is a map from path to what reading that path yields. Key
 * generation, the platform adapter's answers and the collaborators the source
 * takes from elsewhere (`isCertValid`, `isCertSignedByCA`, `getCertSha1`,
 * `isIp`, `isMatched`, `getAdded`) are inputs.
 */
module TrustedCertEngine {
  import opened Wrappers
  import opened Cert
  import Exec
  import Text

  // ---------------------------------------------------------------------------
  // Paths and stored files

  /** `certPath(dir, name)`: `<dir>/<name>.crt`. */
  function CertPath(dir: string, name: string): (path: string)
    ensures |dir| + 5 <= |path| && path[..|dir| + 1] == dir + "/" && path[|path| - 4..] == ".crt"
  {
    Text.JoinPath(dir, name + ".crt")
  }

  /** `keyPath(dir, name)`: `<dir>/<name>.key`. */
  function KeyPath(dir: string, name: string): (path: string)
    ensures |dir| + 5 <= |path| && path[..|dir| + 1] == dir + "/" && path[|path| - 4..] == ".key"
  {
    Text.JoinPath(dir, name + ".key")
  }

  /**
   * A certificate file and a key file never share a path, and each path names
   * one file name only.
   */
  lemma PathsDiffer(dir: string, a: string, b: string)
    ensures CertPath(dir, a) != KeyPath(dir, b)
    ensures CertPath(dir, a) == CertPath(dir, b) <==> a == b
    ensures KeyPath(dir, a) == KeyPath(dir, b) <==> a == b
  {
    var ca, cb, kb := CertPath(dir, a), CertPath(dir, b), KeyPath(dir, b);
    assert ca[|ca| - 1] == 't' && kb[|kb| - 1] == 'y';
    if ca == cb {
      assert a == ca[|dir| + 1..|ca| - 4] == cb[|dir| + 1..|cb| - 4] == b;
    }
    var ka := KeyPath(dir, a);
    if ka == kb {
      assert a == ka[|dir| + 1..|ka| - 4] == kb[|dir| + 1..|kb| - 4] == b;
    }
  }

  /**
   * What reading one path of the directory yields: a certificate PEM, a private
   * key PEM, text neither PEM parser accepts, or a read error with its `code`.
   */
  datatype StoredFile =
    | CertPem(cert: Certificate)
    | KeyPem(key: PrivateKey)
    | Garbled
    | Unreadable(code: string)

  type Files = map<string, StoredFile>

  const Enoent: string := "ENOENT"

  /** The errors the engine's operations throw or reject with. */
  datatype Error =
    | LoadFailed(path: string, code: Option<string>)  // a read or parse error, rethrown by `loadCertAndKey`
    | CommonNameMissing                                 // `getCertCommonName` threw
    | HostEmpty                                         // `sign_host_empty`
    | CaCreateFailed                                    // `ca_create_failed`
    | KeyGenFailed                                      // `generateKeyPair` rejected
    | WriteFailed(path: string)                         // `writeFileSync` threw
    | HashListFailed                                    // the adapter's `getHashList` rejected

  /** Reading `path` fails with code ENOENT. */
  predicate Missing(files: Files, path: string) {
    path !in files || files[path] == Unreadable(Enoent)
  }

  /** `readCert`: read the file, then parse it as a certificate PEM. */
  function ReadCert(files: Files, path: string): (r: Result<Certificate, Error>)
    ensures r.Ok? <==> path in files && files[path].CertPem?
    ensures r.Ok? ==> files[path] == CertPem(r.value)
    ensures r.Err? ==> r.error.LoadFailed? && r.error.path == path
                       && (r.error.code == Some(Enoent) <==> Missing(files, path))
  {
    if path !in files then Err(LoadFailed(path, Some(Enoent)))
    else match files[path]
      case CertPem(cert) => Ok(cert)
      case Unreadable(code) => Err(LoadFailed(path, Some(code)))
      case _ => Err(LoadFailed(path, None))
  }

  /** `readKey`: read the file, then parse it as a private key PEM. */
  function ReadKey(files: Files, path: string): (r: Result<PrivateKey, Error>)
    ensures r.Ok? <==> path in files && files[path].KeyPem?
    ensures r.Ok? ==> files[path] == KeyPem(r.value)
    ensures r.Err? ==> r.error.LoadFailed? && r.error.path == path
                       && (r.error.code == Some(Enoent) <==> Missing(files, path))
  {
    if path !in files then Err(LoadFailed(path, Some(Enoent)))
    else match files[path]
      case KeyPem(key) => Ok(key)
      case Unreadable(code) => Err(LoadFailed(path, Some(code)))
      case _ => Err(LoadFailed(path, None))
  }

  datatype CertAndKey = CertAndKey(cert: Certificate, key: PrivateKey)

  /**
   * `loadCertAndKey(name)` (src/lib/trusted-cert.ts:292-305): the certificate is
   * read first, then the key. Only a missing file (ENOENT) means "nothing
   * stored"; every other read or parse error is rethrown.
   */
  function LoadCertAndKey(files: Files, dir: string, name: string): (r: Result<Option<CertAndKey>, Error>)
    ensures r.Ok? && r.value.Some? <==>
              CertPath(dir, name) in files && files[CertPath(dir, name)].CertPem?
              && KeyPath(dir, name) in files && files[KeyPath(dir, name)].KeyPem?
    ensures r.Ok? && r.value.Some? ==>
              files[CertPath(dir, name)] == CertPem(r.value.value.cert)
              && files[KeyPath(dir, name)] == KeyPem(r.value.value.key)
    ensures r == Ok(None) <==>
              Missing(files, CertPath(dir, name))
              || (CertPath(dir, name) in files && files[CertPath(dir, name)].CertPem?
                  && Missing(files, KeyPath(dir, name)))
    ensures r.Err? ==> r.error.LoadFailed? && r.error.code != Some(Enoent)
  {
    match ReadCert(files, CertPath(dir, name))
    case Err(e) => if e.code == Some(Enoent) then Ok(None) else Err(e)
    case Ok(cert) =>
      match ReadKey(files, KeyPath(dir, name))
      case Err(e) => if e.code == Some(Enoent) then Ok(None) else Err(e)
      case Ok(key) => Ok(Some(CertAndKey(cert, key)))
  }

  /** A directory that holds a certificate and a key under one name loads exactly that pair. */
  lemma LoadStored(files: Files, dir: string, name: string, cert: Certificate, key: PrivateKey)
    requires CertPath(dir, name) in files && files[CertPath(dir, name)] == CertPem(cert)
    requires KeyPath(dir, name) in files && files[KeyPath(dir, name)] == KeyPem(key)
    ensures LoadCertAndKey(files, dir, name) == Ok(Some(CertAndKey(cert, key)))
  {
  }

  /** `loadCertAndKey` reads two paths only: a directory that agrees on them loads the same. */
  lemma LoadReadsTwoPaths(a: Files, b: Files, dir: string, name: string)
    requires forall p :: p == CertPath(dir, name) || p == KeyPath(dir, name) ==>
               (p in a <==> p in b) && (p in a ==> a[p] == b[p])
    ensures LoadCertAndKey(a, dir, name) == LoadCertAndKey(b, dir, name)
  {
    assert ReadCert(a, CertPath(dir, name)) == ReadCert(b, CertPath(dir, name));
    assert ReadKey(a, KeyPath(dir, name)) == ReadKey(b, KeyPath(dir, name));
  }

  // ---------------------------------------------------------------------------
  // Collaborators and outcomes supplied from outside

  /**
   * The functions the engine calls but does not define: `isIp`, `getCertSha1`,
   * `isCertSignedByCA(cert, ca)`, `isCertValid(cert)` at time `now`, and the
   * host-list helpers `isMatched` and `getAdded`.
   */
  datatype Collaborators = Collaborators(
    isIp: string -> bool,
    sha1: Certificate -> string,
    signedBy: (Certificate, Certificate) -> bool,
    isValid: (Certificate, nat) -> bool,
    isMatched: (seq<string>, seq<string>) -> bool,
    getAdded: (seq<string>, seq<string>) -> seq<string>)

  /** What the platform adapter's `getHashList(cn)` answers: the fingerprints listed per common name, or a rejection. */
  datatype TrustStore = TrustStore(lists: map<string, seq<string>>, rejects: bool)

  function HashList(store: TrustStore, cn: string): seq<string> {
    if cn in store.lists then store.lists[cn] else []
  }

  /** The outcome of `generateKeyPair`. */
  datatype KeyGen = Generated(keys: KeyPair) | GenFailed

  /** The outcome of the adapter's `remove(cn)`: its boolean, or a rejection. */
  datatype RemoveOutcome = Removed(result: bool) | RemoveThrew

  /** `sign`'s result: the key and certificate (PEM text in the source) and the paths they belong to. */
  datatype SignedInfo = SignedInfo(key: PrivateKey, cert: Certificate, keyFilePath: string, certFilePath: string)

  /** `install`'s result: `sign`'s result and whether the CA was added to the trust store. */
  datatype Installed = Installed(info: SignedInfo, trusted: bool)

  /** `uninstall` resolves to `false` when the trust-store removal threw, otherwise to `undefined`. */
  datatype Uninstall = Aborted | Done

  /** `trust`'s result, with whether it called the adapter's `add`. */
  datatype TrustOutcome = TrustOutcome(trusted: bool, addCalled: bool)

  // ---------------------------------------------------------------------------
  // The decision `sign` takes about the stored leaf

  /** Return the stored leaf unchanged, or issue one for the given hosts. */
  datatype Plan = Reuse | Issue(signHosts: seq<string>)

  /**
   * `sign`'s choice (src/lib/trusted-cert.ts:160-190). A stored leaf is reused
   * when overwrite is off, it is signed by the CA, still valid and its hosts
   * satisfy the request. A leaf is issued for the requested hosts when overwrite
   * is on or nothing is stored; otherwise for the stored hosts followed by the
   * added ones, so the old host list is kept as a prefix. The list can be empty,
   * and `sign_host_empty` thrown, only in the first case.
   */
  function PlanSign(env: Collaborators, now: nat, ca: CertAndKey, ssl: Option<CertAndKey>,
                    hosts: seq<string>, overwrite: bool): (r: Result<Plan, Error>)
    ensures r == Ok(Reuse) <==>
              !overwrite && ssl.Some? && env.signedBy(ssl.value.cert, ca.cert)
              && env.isValid(ssl.value.cert, now) && CertHosts(ssl.value.cert).Ok?
              && env.isMatched(CertHosts(ssl.value.cert).value, hosts)
    ensures r == Err(CommonNameMissing) <==> !overwrite && ssl.Some? && CertHosts(ssl.value.cert).Err?
    ensures r == Err(HostEmpty) <==> (overwrite || ssl.None?) && hosts == []
    ensures r.Err? ==> r.error == CommonNameMissing || r.error == HostEmpty
    ensures r.Ok? && r.value.Issue? ==> r.value.signHosts != []
    ensures r.Ok? && r.value.Issue? && (overwrite || ssl.None?) ==> r.value.signHosts == hosts
    ensures r.Ok? && r.value.Issue? && !overwrite && ssl.Some? ==>
              var current := CertHosts(ssl.value.cert).value;
              current <= r.value.signHosts
              && r.value.signHosts[|current|..] == env.getAdded(current, hosts)
  {
    if overwrite || ssl.None? then
      if hosts == [] then Err(HostEmpty) else Ok(Issue(hosts))
    else
      match CertHosts(ssl.value.cert)
      case Err(_) => Err(CommonNameMissing)
      case Ok(current) =>
        var valid := env.signedBy(ssl.value.cert, ca.cert) && env.isValid(ssl.value.cert, now);
        if valid && env.isMatched(current, hosts) then Ok(Reuse)
        else
          var signHosts := current + env.getAdded(current, hosts);
          assert signHosts[|current|..] == env.getAdded(current, hosts);
          Ok(Issue(signHosts))
  }

  // ---------------------------------------------------------------------------
  // The engine

  class TrustedCert {
    const dir: string
    const caName: string
    const sslName: string
    /** The trust store as the platform adapter reports it. */
    const api: TrustStore
    /** Paths the file system refuses to write or remove. */
    const readOnly: set<string>
    /** The directory's contents. */
    var files: Files

    /** The constructor (src/lib/trusted-cert.ts:62-82): CA and leaf names default to "ca" and "ssl". */
    constructor(dir: string, caName: Option<string>, sslName: Option<string>, api: TrustStore,
                readOnly: set<string>, files: Files)
      ensures this.dir == dir && this.api == api && this.readOnly == readOnly && this.files == files
      ensures this.caName == caName.GetOr("ca") && this.sslName == sslName.GetOr("ssl")
    {
      this.dir := dir;
      this.caName := caName.GetOr("ca");
      this.sslName := sslName.GetOr("ssl");
      this.api := api;
      this.readOnly := readOnly;
      this.files := files;
    }

    /** `writeFileSync(path, content)`: it throws on a read-only path and writes nothing then. */
    method Write(path: string, content: StoredFile) returns (ok: bool)
      modifies this
      ensures ok <==> path !in readOnly
      ensures files == if ok then old(files)[path := content] else old(files)
    {
      ok := path !in readOnly;
      if ok {
        files := files[path := content];
      }
    }

    /** The directory after `rm` of each of `paths`: removable ones are gone, the rest is as before. */
    function Removed(before: Files, paths: seq<string>): (after: Files)
      ensures forall p :: p in after ==> p in before && after[p] == before[p]
      ensures forall p :: p in before ==> (p in after <==> p !in paths || p in readOnly)
    {
      map p | p in before && (p !in paths || p in readOnly) :: before[p]
    }

    /**
     * `rmAll(paths)` (src/lib/trusted-cert.ts:45-46): each `rm` that fails is
     * swallowed, and a missing file is no error.
     */
    method RmAll(paths: seq<string>)
      modifies this
      ensures files == Removed(old(files), paths)
    {
      for i := 0 to |paths|
        invariant files == Removed(old(files), paths[..i])
      {
        assert paths[..i + 1] == paths[..i] + [paths[i]];
        if paths[i] !in readOnly {
          files := files - {paths[i]};
        }
      }
      assert paths[..|paths|] == paths;
    }

    // -------------------------------------------------------------------------
    // ensureCA

    /** What `ensureCA` (src/lib/trusted-cert.ts:315-338) leaves behind, starting from the directory `before`. */
    ghost predicate EnsuredCA(before: Files, after: Files, keyGen: KeyGen, now: nat,
                              r: Result<CertAndKey, Error>)
    {
      var certFile, keyFile := CertPath(dir, caName), KeyPath(dir, caName);
      match LoadCertAndKey(before, dir, caName)
      case Err(e) => r == Err(e) && after == before
      case Ok(stored) =>
        if stored.Some? then r == Ok(stored.value) && after == before
        else if keyGen.GenFailed? || certFile in readOnly then r == Err(CaCreateFailed) && after == before
        else if keyFile in readOnly then
          r == Err(CaCreateFailed)
          && exists cert :: CaCertFor(cert, keyGen.keys, now) && after == before[certFile := CertPem(cert)]
        else
          r.Ok? && r.value.key == keyGen.keys.privateKey && CaCertFor(r.value.cert, keyGen.keys, now)
          && after == before[certFile := CertPem(r.value.cert)][keyFile := KeyPem(r.value.key)]
    }

    /**
     * `ensureCA`: a stored CA is returned untouched; otherwise a new one is
     * created and its certificate, then its key, written under `caName`. Any
     * failure while creating it becomes `ca_create_failed`.
     */
    method EnsureCA(keyGen: KeyGen, now: nat) returns (r: Result<CertAndKey, Error>)
      modifies this
      ensures EnsuredCA(old(files), files, keyGen, now, r)
    {
      var loaded := LoadCertAndKey(files, dir, caName);
      if loaded.Err? {
        return Err(loaded.error);
      }
      if loaded.value.Some? {
        return Ok(loaded.value.value);
      }
      if keyGen.GenFailed? {
        return Err(CaCreateFailed);
      }
      var cert := CreateCACert(keyGen.keys, now);
      var ok := Write(CertPath(dir, caName), CertPem(cert));
      if !ok {
        return Err(CaCreateFailed);
      }
      ok := Write(KeyPath(dir, caName), KeyPem(keyGen.keys.privateKey));
      if !ok {
        return Err(CaCreateFailed);
      }
      r := Ok(CertAndKey(cert, keyGen.keys.privateKey));
    }

    /** The CA `ensureCA` returns is the one `loadCA` finds afterwards. */
    lemma EnsuredCAIsLoaded(before: Files, after: Files, keyGen: KeyGen, now: nat, r: Result<CertAndKey, Error>)
      requires EnsuredCA(before, after, keyGen, now, r) && r.Ok?
      ensures LoadCertAndKey(after, dir, caName) == Ok(Some(r.value))
    {
      if LoadCertAndKey(before, dir, caName) == Ok(None) {
        PathsDiffer(dir, caName, caName);
        LoadStored(after, dir, caName, r.value.cert, r.value.key);
      }
    }

    /** A second `ensureCA` after a successful one returns the same CA and writes nothing. */
    lemma EnsureCAIdempotent(f0: Files, f1: Files, f2: Files, k1: KeyGen, k2: KeyGen, now1: nat, now2: nat,
                             r1: Result<CertAndKey, Error>, r2: Result<CertAndKey, Error>)
      requires EnsuredCA(f0, f1, k1, now1, r1) && r1.Ok?
      requires EnsuredCA(f1, f2, k2, now2, r2)
      ensures r2 == r1 && f2 == f1
    {
      EnsuredCAIsLoaded(f0, f1, k1, now1, r1);
    }

    // -------------------------------------------------------------------------
    // isCertTrusted and trust

    /**
     * `isCertTrusted(cert)` (src/lib/trusted-cert.ts:340-353): false for a
     * certificate that is not valid, without asking the adapter; otherwise
     * whether its fingerprint is among those listed under its common name.
     */
    function IsCertTrusted(env: Collaborators, now: nat, cert: Certificate): (r: Result<bool, Error>)
      ensures !env.isValid(cert, now) ==> r == Ok(false)
      ensures env.isValid(cert, now) ==> (r.Err? <==> GetCertCommonName(cert).Err? || api.rejects)
      ensures r == Ok(true) <==>
                env.isValid(cert, now) && GetCertCommonName(cert).Ok? && !api.rejects
                && env.sha1(cert) in HashList(api, GetCertCommonName(cert).value)
    {
      if !env.isValid(cert, now) then Ok(false)
      else match GetCertCommonName(cert)
        case Err(_) => Err(CommonNameMissing)
        case Ok(cn) =>
          if api.rejects then Err(HashListFailed)
          else Ok(env.sha1(cert) in HashList(api, cn))
    }

    /**
     * `trust(ca)` as written (src/lib/trusted-cert.ts:268-286): the condition
     * tests the promise `isCertTrusted` returns, which is always truthy, so
     * `add` is never called and the result is always false.
     */
    function Trust(ca: CertAndKey, addOutcome: Exec.Settled): (o: TrustOutcome)
      ensures !o.trusted && !o.addCalled
    {
      TrustOutcome(false, false)
    }

    /**
     * `trust(ca)` with the trust check awaited: `add` is called exactly when the
     * CA is not trusted yet, and the result is whether that call resolved.
     */
    function TrustIntended(env: Collaborators, now: nat, ca: CertAndKey, addOutcome: Exec.Settled)
      : (r: Result<TrustOutcome, Error>)
      ensures r.Ok? <==> IsCertTrusted(env, now, ca.cert).Ok?
      ensures r.Ok? ==> (r.value.addCalled <==> IsCertTrusted(env, now, ca.cert) == Ok(false))
      ensures r.Ok? ==> (r.value.trusted <==> r.value.addCalled && addOutcome == Exec.Resolved)
    {
      match IsCertTrusted(env, now, ca.cert)
      case Err(e) => Err(e)
      case Ok(alreadyTrusted) =>
        if alreadyTrusted then Ok(TrustOutcome(false, false))
        else Ok(TrustOutcome(addOutcome == Exec.Resolved, true))
    }

    /** For a CA that is not trusted yet and an `add` that succeeds, `trust` as written still neither adds nor reports it. */
    lemma TrustNeverAdds(env: Collaborators, now: nat, ca: CertAndKey)
      requires IsCertTrusted(env, now, ca.cert) == Ok(false)
      ensures TrustIntended(env, now, ca, Exec.Resolved) == Ok(TrustOutcome(true, true))
      ensures Trust(ca, Exec.Resolved) == TrustOutcome(false, false)
    {
    }

    // -------------------------------------------------------------------------
    // sign

    /** The name `sign` writes under: its `sslName` argument, or `this.sslName` when that is absent or empty. */
    function LeafName(sslNameArg: Option<string>): (name: string)
      ensures sslNameArg.Some? && sslNameArg.value != "" ==> name == sslNameArg.value
      ensures sslNameArg.None? || sslNameArg.value == "" ==> name == sslName
    {
      if sslNameArg.None? || sslNameArg.value == "" then sslName else sslNameArg.value
    }

    /**
     * What `sign` does once the CA is known (src/lib/trusted-cert.ts:153-220),
     * starting from the directory `before`, writing under `name`. The stored leaf
     * is loaded under `this.sslName`. A reused leaf writes nothing; otherwise a
     * stored key is kept (even under overwrite) and a fresh one is written before
     * the certificate.
     */
    ghost predicate Signed(before: Files, after: Files, env: Collaborators, now: nat, ca: CertAndKey,
                           name: string, expiresIn: Option<int>, hosts: seq<string>, overwrite: bool,
                           keyGen: KeyGen, r: Result<SignedInfo, Error>)
    {
      var keyFile, certFile := KeyPath(dir, name), CertPath(dir, name);
      match LoadCertAndKey(before, dir, sslName)
      case Err(e) => r == Err(e) && after == before
      case Ok(ssl) =>
        match PlanSign(env, now, ca, ssl, hosts, overwrite)
        case Err(e) => r == Err(e) && after == before
        case Ok(plan) =>
          if plan.Reuse? then
            r == Ok(SignedInfo(ssl.value.key, ssl.value.cert, keyFile, certFile)) && after == before
          else Issued(before, after, env, now, ca, ssl, name, expiresIn, plan.signHosts, keyGen, r)
    }

    /**
     * How `sign` issues a leaf for `signHosts` (src/lib/trusted-cert.ts:192-220):
     * a stored key is kept and no key file written; otherwise a fresh key is
     * written first, then the certificate, each write able to throw.
     */
    ghost predicate Issued(before: Files, after: Files, env: Collaborators, now: nat, ca: CertAndKey,
                           ssl: Option<CertAndKey>, name: string, expiresIn: Option<int>,
                           signHosts: seq<string>, keyGen: KeyGen, r: Result<SignedInfo, Error>)
    {
      var keyFile, certFile := KeyPath(dir, name), CertPath(dir, name);
      if ssl.None? && keyGen.GenFailed? then r == Err(KeyGenFailed) && after == before
      else if ssl.None? && keyFile in readOnly then r == Err(WriteFailed(keyFile)) && after == before
      else
        var key := if ssl.Some? then ssl.value.key else keyGen.keys.privateKey;
        var publicKey := if ssl.Some? then PublicKeyOf(key) else keyGen.keys.publicKey;
        var keyed := if ssl.Some? then before else before[keyFile := KeyPem(key)];
        if certFile in readOnly then r == Err(WriteFailed(certFile)) && after == keyed
        else
          r.Ok? && r.value == SignedInfo(key, r.value.cert, keyFile, certFile)
          && LeafFor(r.value.cert, ca.key, Some(ca.cert.subject), publicKey, signHosts,
                     expiresIn, env.isIp, now)
          && after == keyed[certFile := CertPem(r.value.cert)]
    }

    /** The key and certificate steps of `sign`. */
    method IssueLeaf(env: Collaborators, now: nat, ca: CertAndKey, ssl: Option<CertAndKey>, name: string,
                 expiresIn: Option<int>, signHosts: seq<string>, keyGen: KeyGen)
      returns (r: Result<SignedInfo, Error>)
      modifies this
      ensures Issued(old(files), files, env, now, ca, ssl, name, expiresIn, signHosts, keyGen, r)
    {
      var keyFile, certFile := KeyPath(dir, name), CertPath(dir, name);
      var privateKey, publicKey;
      if ssl.Some? {
        privateKey := ssl.value.key;
        publicKey := PublicKeyOf(privateKey);
      } else {
        if keyGen.GenFailed? {
          return Err(KeyGenFailed);
        }
        var ok := Write(keyFile, KeyPem(keyGen.keys.privateKey));
        if !ok {
          return Err(WriteFailed(keyFile));
        }
        privateKey := keyGen.keys.privateKey;
        publicKey := keyGen.keys.publicKey;
      }
      var cert := CreateCert(ca.key, Some(ca.cert.subject), publicKey, signHosts, expiresIn, env.isIp, now);
      var ok := Write(certFile, CertPem(cert));
      if !ok {
        return Err(WriteFailed(certFile));
      }
      r := Ok(SignedInfo(privateKey, cert, keyFile, certFile));
    }

    /** The part of `sign` after the CA is known. */
    method SignWith(env: Collaborators, now: nat, ca: CertAndKey, name: string, expiresIn: Option<int>,
                    hosts: seq<string>, overwrite: bool, keyGen: KeyGen)
      returns (r: Result<SignedInfo, Error>)
      modifies this
      ensures Signed(old(files), files, env, now, ca, name, expiresIn, hosts, overwrite, keyGen, r)
    {
      var keyFile, certFile := KeyPath(dir, name), CertPath(dir, name);
      var loaded := LoadCertAndKey(files, dir, sslName);
      if loaded.Err? {
        return Err(loaded.error);
      }
      var ssl := loaded.value;
      var signHosts := hosts;
      if !overwrite && ssl.Some? {
        var valid := true;
        if !env.signedBy(ssl.value.cert, ca.cert) {
          valid := false;
        }
        if !env.isValid(ssl.value.cert, now) {
          valid := false;
        }
        var currentHosts := GetCertHosts(ssl.value.cert);
        if currentHosts.Err? {
          return Err(CommonNameMissing);
        }
        if valid && env.isMatched(currentHosts.value, hosts) {
          return Ok(SignedInfo(ssl.value.key, ssl.value.cert, keyFile, certFile));
        }
        var addHosts := env.getAdded(currentHosts.value, signHosts);
        signHosts := currentHosts.value + addHosts;
      }
      assert PlanSign(env, now, ca, ssl, hosts, overwrite).Ok? ==>
               PlanSign(env, now, ca, ssl, hosts, overwrite) == Ok(Issue(signHosts));
      if |signHosts| == 0 {
        return Err(HostEmpty);
      }
      r := IssueLeaf(env, now, ca, ssl, name, expiresIn, signHosts, keyGen);
    }

    /**
     * `sign` (src/lib/trusted-cert.ts:136-221): `ensureCA` when no CA is passed,
     * then the leaf step under the effective name.
     */
    method Sign(env: Collaborators, now: nat, ca: Option<CertAndKey>, sslNameArg: Option<string>,
                expiresIn: Option<int>, hosts: seq<string>, overwrite: bool, caKeyGen: KeyGen, keyGen: KeyGen)
      returns (r: Result<SignedInfo, Error>, ghost caStep: Result<CertAndKey, Error>, ghost afterCA: Files)
      modifies this
      ensures ca.Some? ==> caStep == Ok(ca.value) && afterCA == old(files)
      ensures ca.None? ==> EnsuredCA(old(files), afterCA, caKeyGen, now, caStep)
      ensures caStep.Err? ==> r == Err(caStep.error) && files == afterCA
      ensures caStep.Ok? ==>
                Signed(afterCA, files, env, now, caStep.value, LeafName(sslNameArg), expiresIn, hosts,
                       overwrite, keyGen, r)
    {
      var ensured;
      if ca.Some? {
        ensured := Ok(ca.value);
      } else {
        ensured := EnsureCA(caKeyGen, now);
      }
      caStep, afterCA := ensured, files;
      if ensured.Err? {
        r := Err(ensured.error);
        return;
      }
      r := SignWith(env, now, ensured.value, LeafName(sslNameArg), expiresIn, hosts, overwrite, keyGen);
    }

    /** Signing under `this.sslName` leaves exactly the returned leaf for the next `loadSSL`. */
    lemma SignedIsLoaded(before: Files, after: Files, env: Collaborators, now: nat, ca: CertAndKey,
                         expiresIn: Option<int>, hosts: seq<string>, overwrite: bool, keyGen: KeyGen,
                         r: Result<SignedInfo, Error>)
      requires Signed(before, after, env, now, ca, sslName, expiresIn, hosts, overwrite, keyGen, r) && r.Ok?
      ensures LoadCertAndKey(after, dir, sslName) == Ok(Some(CertAndKey(r.value.cert, r.value.key)))
    {
      PathsDiffer(dir, sslName, sslName);
      var ssl := LoadCertAndKey(before, dir, sslName).value;
      if PlanSign(env, now, ca, ssl, hosts, overwrite) != Ok(Reuse) {
        LoadStored(after, dir, sslName, r.value.cert, r.value.key);
      }
    }

    /** Whether two directories agree on every path except `x` and `y`. */
    ghost predicate SameExcept(a: Files, b: Files, x: string, y: string) {
      forall p :: p != x && p != y ==> (p in a <==> p in b) && (p in a ==> a[p] == b[p])
    }

    /** Issuing a leaf writes the key and certificate files under `name` and no other path. */
    lemma IssuedTouchesOnlyLeaf(before: Files, after: Files, env: Collaborators, now: nat, ca: CertAndKey,
                                ssl: Option<CertAndKey>, name: string, expiresIn: Option<int>,
                                signHosts: seq<string>, keyGen: KeyGen, r: Result<SignedInfo, Error>)
      requires Issued(before, after, env, now, ca, ssl, name, expiresIn, signHosts, keyGen, r)
      ensures SameExcept(after, before, KeyPath(dir, name), CertPath(dir, name))
    {
    }

    /** `sign` writes the key and certificate files under `name` and no other path. */
    lemma SignedTouchesOnlyLeaf(before: Files, after: Files, env: Collaborators, now: nat, ca: CertAndKey,
                                name: string, expiresIn: Option<int>, hosts: seq<string>, overwrite: bool,
                                keyGen: KeyGen, r: Result<SignedInfo, Error>)
      requires Signed(before, after, env, now, ca, name, expiresIn, hosts, overwrite, keyGen, r)
      ensures SameExcept(after, before, KeyPath(dir, name), CertPath(dir, name))
    {
      var loaded := LoadCertAndKey(before, dir, sslName);
      if loaded.Ok? {
        var plan := PlanSign(env, now, ca, loaded.value, hosts, overwrite);
        if plan.Ok? && plan.value.Issue? {
          IssuedTouchesOnlyLeaf(before, after, env, now, ca, loaded.value, name, expiresIn,
                                plan.value.signHosts, keyGen, r);
        }
      }
    }

    /**
     * Signing under a name other than `this.sslName` never changes the leaf the
     * next `sign` loads.
     */
    lemma SignElsewhereKeepsLeaf(before: Files, after: Files, env: Collaborators, now: nat, ca: CertAndKey,
                                 name: string, expiresIn: Option<int>, hosts: seq<string>, overwrite: bool,
                                 keyGen: KeyGen, r: Result<SignedInfo, Error>)
      requires Signed(before, after, env, now, ca, name, expiresIn, hosts, overwrite, keyGen, r)
      requires name != sslName
      ensures LoadCertAndKey(after, dir, sslName) == LoadCertAndKey(before, dir, sslName)
    {
      SignedTouchesOnlyLeaf(before, after, env, now, ca, name, expiresIn, hosts, overwrite, keyGen, r);
      PathsDiffer(dir, name, sslName);
      PathsDiffer(dir, sslName, name);
      LoadReadsTwoPaths(after, before, dir, sslName);
    }

    /** A leaf written under a name other than the CA's leaves the CA as `loadCA` finds it. */
    lemma SignKeepsCA(before: Files, after: Files, env: Collaborators, now: nat, ca: CertAndKey,
                      name: string, expiresIn: Option<int>, hosts: seq<string>, overwrite: bool,
                      keyGen: KeyGen, r: Result<SignedInfo, Error>)
      requires Signed(before, after, env, now, ca, name, expiresIn, hosts, overwrite, keyGen, r)
      requires name != caName
      ensures LoadCertAndKey(after, dir, caName) == LoadCertAndKey(before, dir, caName)
    {
      SignedTouchesOnlyLeaf(before, after, env, now, ca, name, expiresIn, hosts, overwrite, keyGen, r);
      PathsDiffer(dir, name, caName);
      PathsDiffer(dir, caName, name);
      LoadReadsTwoPaths(after, before, dir, caName);
    }

    // -------------------------------------------------------------------------
    // install, doTrust and uninstall

    /**
     * `install` (src/lib/trusted-cert.ts:84-104): `ensureCA`, then `trust`, then
     * `sign` with that CA under `this.sslName`. As `trust` is written, the result
     * never reports the CA as trusted.
     */
    method Install(env: Collaborators, now: nat, hosts: seq<string>, overwrite: bool, caKeyGen: KeyGen,
                   keyGen: KeyGen, addOutcome: Exec.Settled)
      returns (r: Result<Installed, Error>, ghost caStep: Result<CertAndKey, Error>, ghost afterCA: Files,
               ghost signed: Result<SignedInfo, Error>)
      modifies this
      ensures EnsuredCA(old(files), afterCA, caKeyGen, now, caStep)
      ensures caStep.Err? ==> r == Err(caStep.error) && files == afterCA
      ensures caStep.Ok? ==>
                Signed(afterCA, files, env, now, caStep.value, sslName, None, hosts, overwrite, keyGen, signed)
                && r == (if signed.Ok? then Ok(Installed(signed.value, false)) else Err(signed.error))
    {
      var ca := EnsureCA(caKeyGen, now);
      caStep, afterCA := ca, files;
      if ca.Err? {
        r, signed := Err(ca.error), Err(ca.error);
        return;
      }
      var trusted := Trust(ca.value, addOutcome).trusted;
      var info;
      ghost var passedCA, filesWithCA;
      info, passedCA, filesWithCA := Sign(env, now, Some(ca.value), None, None, hosts, overwrite, caKeyGen, keyGen);
      signed := info;
      if info.Err? {
        r := Err(info.error);
        return;
      }
      r := Ok(Installed(info.value, trusted));
    }

    /**
     * After a successful `install` with distinct CA and leaf names, `loadCA`
     * finds the CA it used and `loadSSL` the leaf it returned.
     */
    lemma InstalledIsLoaded(f0: Files, f1: Files, f2: Files, env: Collaborators, now: nat, hosts: seq<string>,
                            overwrite: bool, caKeyGen: KeyGen, keyGen: KeyGen,
                            caStep: Result<CertAndKey, Error>, signed: Result<SignedInfo, Error>)
      requires caName != sslName
      requires EnsuredCA(f0, f1, caKeyGen, now, caStep) && caStep.Ok?
      requires Signed(f1, f2, env, now, caStep.value, sslName, None, hosts, overwrite, keyGen, signed)
      requires signed.Ok?
      ensures LoadCertAndKey(f2, dir, caName) == Ok(Some(caStep.value))
      ensures LoadCertAndKey(f2, dir, sslName) == Ok(Some(CertAndKey(signed.value.cert, signed.value.key)))
    {
      EnsuredCAIsLoaded(f0, f1, caKeyGen, now, caStep);
      SignKeepsCA(f1, f2, env, now, caStep.value, sslName, None, hosts, overwrite, keyGen, signed);
      SignedIsLoaded(f1, f2, env, now, caStep.value, None, hosts, overwrite, keyGen, signed);
    }

    /** `doTrust` (src/lib/trusted-cert.ts:223-226): `ensureCA`, then `trust`, whose result it returns. */
    method DoTrust(now: nat, caKeyGen: KeyGen, addOutcome: Exec.Settled)
      returns (r: Result<bool, Error>, ghost caStep: Result<CertAndKey, Error>)
      modifies this
      ensures EnsuredCA(old(files), files, caKeyGen, now, caStep)
      ensures caStep.Err? ==> r == Err(caStep.error)
      ensures caStep.Ok? ==> r == Ok(false)
    {
      var ca := EnsureCA(caKeyGen, now);
      caStep := ca;
      if ca.Err? {
        r := Err(ca.error);
        return;
      }
      r := Ok(Trust(ca.value, addOutcome).trusted);
    }

    /**
     * What `uninstall` (src/lib/trusted-cert.ts:106-134) leaves behind. A stored
     * CA that the trust store lists is first removed from it; if that removal
     * throws, nothing is deleted. Otherwise the CA's files go when a CA is
     * stored, and the leaf's files go in every case.
     */
    ghost predicate Uninstalled(before: Files, after: Files, env: Collaborators, now: nat,
                                removal: RemoveOutcome, r: Result<Uninstall, Error>)
    {
      var leafFiles := [CertPath(dir, sslName), KeyPath(dir, sslName)];
      var caFiles := [CertPath(dir, caName), KeyPath(dir, caName)];
      match LoadCertAndKey(before, dir, caName)
      case Err(e) => r == Err(e) && after == before
      case Ok(stored) =>
        if stored.None? then r == Ok(Done) && after == Removed(before, leafFiles)
        else
          match IsCertTrusted(env, now, stored.value.cert)
          case Err(e) => r == Err(e) && after == before
          case Ok(trusted) =>
            if trusted && removal.RemoveThrew? then r == Ok(Aborted) && after == before
            else r == Ok(Done) && after == Removed(Removed(before, caFiles), leafFiles)
    }

    /** `uninstall`; the boolean `remove` resolves to is not looked at. */
    method Uninstall(env: Collaborators, now: nat, removal: RemoveOutcome) returns (r: Result<Uninstall, Error>)
      modifies this
      ensures Uninstalled(old(files), files, env, now, removal, r)
    {
      var loaded := LoadCertAndKey(files, dir, caName);
      if loaded.Err? {
        return Err(loaded.error);
      }
      if loaded.value.Some? {
        var trusted := IsCertTrusted(env, now, loaded.value.value.cert);
        if trusted.Err? {
          return Err(trusted.error);
        }
        if trusted.value && removal.RemoveThrew? {
          return Ok(Aborted);
        }
        RmAll([CertPath(dir, caName), KeyPath(dir, caName)]);
      }
      RmAll([CertPath(dir, sslName), KeyPath(dir, sslName)]);
      r := Ok(Done);
    }

    /** Removing files never makes `loadCertAndKey` find a pair where there was none. */
    lemma RemovedStaysEmpty(before: Files, paths: seq<string>, name: string)
      requires LoadCertAndKey(before, dir, name) == Ok(None)
      ensures LoadCertAndKey(Removed(before, paths), dir, name) == Ok(None)
    {
    }

    /** Once a certificate file is removed, `loadCertAndKey` finds nothing under its name. */
    lemma RemovedCertIsMissing(before: Files, paths: seq<string>, name: string)
      requires CertPath(dir, name) in paths && CertPath(dir, name) !in readOnly
      ensures LoadCertAndKey(Removed(before, paths), dir, name) == Ok(None)
    {
    }

    /**
     * A completed `uninstall` leaves neither a CA nor a leaf for `loadCA` and
     * `loadSSL` to find, unless the file system refused to delete a certificate.
     */
    lemma UninstallForgets(before: Files, after: Files, env: Collaborators, now: nat, removal: RemoveOutcome,
                           r: Result<Uninstall, Error>)
      requires Uninstalled(before, after, env, now, removal, r) && r == Ok(Done)
      requires CertPath(dir, caName) !in readOnly && CertPath(dir, sslName) !in readOnly
      ensures LoadCertAndKey(after, dir, caName) == Ok(None)
      ensures LoadCertAndKey(after, dir, sslName) == Ok(None)
    {
      var leafFiles := [CertPath(dir, sslName), KeyPath(dir, sslName)];
      var caFiles := [CertPath(dir, caName), KeyPath(dir, caName)];
      RemovedCertIsMissing(before, leafFiles, sslName);
      if LoadCertAndKey(before, dir, caName) == Ok(None) {
        RemovedStaysEmpty(before, leafFiles, caName);
      } else {
        RemovedCertIsMissing(before, caFiles, caName);
        RemovedStaysEmpty(Removed(before, caFiles), leafFiles, caName);
        RemovedCertIsMissing(Removed(before, caFiles), leafFiles, sslName);
      }
    }
  }
}
