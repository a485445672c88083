# trusted-cert: a Dafny model of the certificate lifecycle

trusted-cert creates a local certificate authority (CA). It asks the operating
system to trust that CA, and it signs a leaf certificate for a list of host
names and IP addresses. This project models, in Dafny, the parts of it that
decide what gets written, trusted and read back:

- **Certificates** (`cert.dfy`, module `Cert`), from `src/lib/cert.ts`:
  - the serial number: a millisecond timestamp in hexadecimal, padded into a non-negative, minimally encoded DER INTEGER (sections 8.3.2 and 8.3.3 of X.690) that fits the 20 octets of section 4.1.2.2 of RFC 5280;
  - the validity window;
  - the CA certificate;
  - the leaf's subject common name (CN) and subjectAltName (SAN) layout, per section 4.2.1.6 of RFC 5280;
  - `getCertHosts`, which reads the hosts back.

  A certificate is a value. Keys are opaque identities, and "signing" records which private key signed.
- **The engine** (`trusted_cert.dfy`, module `TrustedCertEngine`): the `TrustedCert` class of `src/lib/trusted-cert.ts`.
  - It is a class over a mutable map from path to file contents.
  - Its methods are `ensureCA`, `sign`, `install`, `doTrust`, `uninstall` and `rmAll`, and each is proved against a specification that relates the directory before and after: a ghost predicate, or for `rmAll` the function `Removed`.
  - `loadCertAndKey`, `isCertTrusted` and `trust` are functions.
- **Trust-store adapters**:
  - `platform.dfy`: provider lookup.
  - `darwin.dfy` and `win32.dfy`: the parsing of `security` and `certutil` output, with round-trip lemmas from well-formed command output to the fingerprints. The macOS parsing is exact. The Windows parsing is exact except for `toUpperCase`, which is modelled on ASCII letters only (see "## Left out").
  - `linux.dfy`: a class over the anchor directory's listing. Its `getHashList`, `remove` and `add` loops are proved against scan functions.
- **Support modules**:
  - `text.dfy`: the JavaScript string built-ins used: `split`, `filter(Boolean)`, removal of `\s`, `toUpperCase`.
  - `seqs.dfy`: `findIndex`, and skipping one index.
  - `wrappers.dfy`: `Option` and `Result`. `Err` stands for a thrown exception or a rejected promise.
  - `exec.dfy`: shell-command outcomes.

Inputs the code takes from outside are parameters:
- the clock (`now`, in milliseconds);
- key generation;
- the outcome of every shell command;
- the adapter's answers;
- which paths the file system refuses to write;
- the functions defined elsewhere. These are `isIp`, `getCertSha1`, `isCertSignedByCA`, `isCertValid`, and `isMatched`/`getAdded` from `src/lib/util`, which is not part of this model. They are passed as function values in `TrustedCertEngine.Collaborators`.

## Model

| member | source | states |
|---|---|---|
| Seqs.FirstIndex | src/lib/cert.ts:104 | `findIndex`: -1 exactly when no element satisfies the predicate; otherwise an index that satisfies it with none before it |
| Seqs.Without | src/lib/cert.ts:121-122 | skipping index `i` removes exactly one occurrence of `s[i]` (as multisets); an out-of-range index removes nothing |
| Seqs.WithoutPrefixStep | src/lib/cert.ts:121-122 | a left-to-right walk grows the result by `s[k]` at every index except the skipped one |
| Cert.Hex | src/lib/cert.ts:55 | `toString(16)` gives at least one lower-case hex digit, no leading zero, and the digits denote the number |
| Cert.HexValueLeadingZero | src/lib/cert.ts:58 | a leading "0" does not change the value a hex string denotes |
| Cert.HexLength | src/lib/cert.ts:52-55 | a timestamp below 16^k takes at most k hex digits |
| Cert.PadToOctets | src/lib/cert.ts:56-58 | an odd-length hex string without a leading zero, with "0" prepended, is a non-negative, minimal DER INTEGER of the same value |
| Cert.PadSignOctet | src/lib/cert.ts:59-61 | an even-length hex string whose first digit is 8 or more, with "00" prepended, is a non-negative, minimal DER INTEGER of the same value |
| Cert.NoPadding | src/lib/cert.ts:55-62 | an even-length hex string whose first digit is 1 to 7 is already a non-negative, minimal DER INTEGER |
| Cert.SerialNumber | src/lib/cert.ts:55-62 | the serial is the timestamp's `toString(16)` with nothing, "0" or "00" prepended; it is a non-negative, minimal DER INTEGER whose value is the timestamp, and it fits 20 octets when the timestamp is below 16^38 |
| Cert.CommonName | src/lib/cert.ts:192-199 | the commonName lookup fails exactly when no attribute is named commonName; otherwise it returns the value of the first such attribute, as `getField` does |
| Cert.GetCertAttrs | src/lib/cert.ts:24-29 | a subject holding one attribute, commonName = `cn` (no contract of its own; `Cert.CertAttrsReadBack` states its read-back) |
| Cert.CertAttrsReadBack | src/lib/cert.ts:24-29 | the subject `getCertAttrs(cn)` builds reads back as `cn` |
| Cert.SignCert | src/lib/cert.ts:31-74 | the serial is `SerialNumber(now)`, so a non-negative, minimal DER INTEGER whose value is `now`; notBefore = now, notAfter = now + expiresIn (default 397 days); issuer and subject default to the CA's and "localhost"'s attributes; extensions are as given; the cert is signed with the CA key |
| Cert.GetCertCommonName | src/lib/cert.ts:192-199 | `getCertCommonName` fails exactly when the subject has no commonName attribute |
| Cert.CreateCACert | src/lib/cert.ts:76-89 | self-issued CA certificate: subject and issuer CN "generated by trusted-cert2", basicConstraints cA, ten-year validity, own key pair |
| Cert.CaCertSelfIssued | src/lib/cert.ts:76-89 | any certificate laid out as a CA reads back CN "generated by trusted-cert2", has issuer = subject, carries basicConstraints cA, and lives 3650 days |
| Cert.DomainIndex | src/lib/cert.ts:104 | the index of the first host that is not an IP, with every earlier host an IP; -1 exactly when every host is an IP |
| Cert.LeafCommonNameFor | src/lib/cert.ts:104-105 | the leaf's CN is the first host that is not an IP, and "localhost" when every host is an IP |
| Cert.AltNamesForSnoc | src/lib/cert.ts:121-129 | appending one host appends its SAN entry: type 7 with `ip` for an IP, type 2 with `value` otherwise |
| Cert.SanEntries | src/lib/cert.ts:121-129 | the `forEach` builds one SAN entry per host except the one at `domainIndex`, in input order |
| Cert.CreateCert | src/lib/cert.ts:91-146 | the leaf's CN is the first non-IP host or "localhost"; its extensions are keyUsage, extKeyUsage and, when some host is left, the SAN of every other host in input order; the other fields are those `signCert` sets |
| Cert.SanHosts | src/lib/cert.ts:163-169 | reading back SAN entries yields at most one host per entry |
| Cert.SanHostsAppend | src/lib/cert.ts:163-169 | reading back entries distributes over concatenation |
| Cert.SanHostsPrefixStep | src/lib/cert.ts:163-169 | each SAN entry contributes its own host (type 2 or 7) or nothing |
| Cert.SanHostsOfAltNames | src/lib/cert.ts:163-169 | the entries `createCert` writes read back as exactly the hosts they came from |
| Cert.CertHosts | src/lib/cert.ts:151-172 | `getCertHosts` fails exactly when the CN is missing; otherwise it returns the CN first, followed by at most one host per SAN entry |
| Cert.CollectSanHosts | src/lib/cert.ts:163-169 | the `forEach` + `push` loop collects the host of each type-2 or type-7 entry in stored order |
| Cert.GetCertHosts | src/lib/cert.ts:151-172 | the imperative read-back equals `CertHosts` |
| Cert.LeafHostsRoundTrip | src/lib/cert.ts:104-172 | what `createCert` lays out reads back as the CN followed by every other host in input order |
| Cert.LeafHostsPermutation | src/lib/cert.ts:104-129 | that read-back is a permutation of the hosts when one is a domain; otherwise it is "localhost" followed by the hosts |
| Darwin.StripHashLabels | src/platform/darwin.ts:36 | every "SHA-1\shash:\s" match is removed, scanning from the left; characters are only removed, never added |
| Darwin.StripKeepsLabelFree | src/platform/darwin.ts:36 | text without an 'S' passes through unchanged |
| Darwin.ParseHashList | src/platform/darwin.ts:35-38 | no entry is empty or spans two lines; there are at most as many entries as '\n'-separated segments |
| Darwin.GetHashList | src/platform/darwin.ts:26-44 | [] when `security` throws, the parsed list otherwise |
| Darwin.Remove | src/platform/darwin.ts:16-25 | true exactly when the delete command succeeds; never rejects |
| Darwin.Add | src/platform/darwin.ts:9-15 | rejects exactly when `security add-trusted-cert` throws |
| Darwin.ParseSecurityOutput | src/platform/darwin.ts:31-38 | the "SHA-1 hash: <hex>" lines `security` prints parse back to exactly those fingerprints, in order |
| Text.Split | src/platform/darwin.ts:37 | `split` never returns an empty list |
| Text.SplitCount | src/platform/darwin.ts:37 | `split` returns one more part than there are separators |
| Text.SplitSegmentsFree | src/platform/darwin.ts:37 | no part contains the separator |
| Text.SplitJoin | src/platform/darwin.ts:37 | joining the parts with the separator gives the input back |
| Text.SplitLines | src/platform/darwin.ts:37 | lines each ended by '\n' split back into the lines followed by "" |
| Text.DropEmpty | src/platform/darwin.ts:38 | `filter(Boolean)` keeps exactly the non-empty strings |
| Text.DropEmptyAppend | src/platform/darwin.ts:38 | filtering distributes over concatenation, so order is kept |
| Text.RemoveSpaces | src/platform/win32.ts:34 | `replace(/\s/g, '')` keeps exactly the characters that are not white space |
| Text.RemoveSpacesAppend | src/platform/win32.ts:34 | removal distributes over concatenation |
| Text.ToUpperAscii | src/platform/win32.ts:35 | same length, no lower-case ASCII letter remains, and every other character is kept |
| Win32.RunLength | src/platform/win32.ts:33 | the extent of `.*`: the first line terminator, or the end |
| Win32.LastTag | src/platform/win32.ts:33 | the last position up to `k` where "(sha1):\s" matches, with none after it; -1 when there is none |
| Win32.StripThroughTag | src/platform/win32.ts:33 | the replacement never lengthens a line |
| Win32.StripWithoutTag | src/platform/win32.ts:33 | a line with no "(sha1):\s" is kept as it is |
| Win32.StripLabelledLine | src/platform/win32.ts:33 | "<prefix>(sha1): <hash>\r" loses everything through the tag, leaving "<hash>\r" |
| Win32.NormalizeLine | src/platform/win32.ts:32-35 | a normalized line holds no white space and no lower-case letter |
| Win32.ParseHashList | src/platform/win32.ts:29-37 | entries are non-empty, hold no white space or lower-case letter, and number at most the '\n'-separated lines |
| Win32.GetHashList | src/platform/win32.ts:21-42 | [] when `certutil` throws, the parsed list otherwise |
| Win32.Remove | src/platform/win32.ts:12-20 | true exactly when `certutil -delstore` succeeds; never rejects |
| Win32.Add | src/platform/win32.ts:9-11 | resolves whatever the un-awaited `certutil -addstore` does |
| Win32.NormalizeHashLine | src/platform/win32.ts:32-35 | a hash line normalizes to its hash text without spaces, upper-cased, and that is never empty |
| Win32.ParseCertutilOutput | src/platform/win32.ts:24-37 | the hash lines `certutil` prints parse back to exactly their fingerprints, in order |
| Platform.GetCertificateApi | src/platform/index.ts:7-16 | the first provider in darwin, win32, linux order whose platform is the running one; an error exactly when none is |
| Platform.ProviderForEachPlatform | src/platform/index.ts:6-13 | "darwin", "win32" and "linux" each get their own adapter; every other platform is refused |
| Linux.CertPath | src/platform/linux.ts:11 | `certPath(name)` is the file `<name>.crt` in the anchor directory, which the `.crt` filter accepts |
| Linux.IsCrt | src/platform/linux.ts:17 | the `.crt` filter: an entry is read exactly when its name ends in `.crt` (a predicate; `Linux.CertPath` states that `add`'s target passes it) |
| Linux.ReadEntry | src/platform/linux.ts:17-21 | reading an entry succeeds exactly when it parses as PEM and has a CN, and returns that certificate and CN |
| Linux.HashScan | src/platform/linux.ts:49-53 | the `getHashList` loop as a scan over the listing, stopping at the first error; a result holds at most one fingerprint per entry |
| Linux.HashScanMeaning | src/platform/linux.ts:46-56 | `getHashList` fails exactly when some `.crt` entry cannot be read, parsed or named; otherwise it lists the SHA-1 of every `.crt` certificate whose CN matches, in directory order |
| Linux.AllReadableSnoc | src/platform/linux.ts:16-22 | a listing is readable exactly when its prefix and its last `.crt` entry are |
| Linux.HashScanExtend | src/platform/linux.ts:49-53 | one more turn of the `getHashList` loop |
| Linux.HashScanErrorStays | src/platform/linux.ts:49-53 | the first error decides the outcome |
| Linux.AnchorDir.GetHashList | src/platform/linux.ts:46-56 | the loop's result is the scan's; it is Ok exactly when the directory lists and every `.crt` entry reads, and then it holds the matching fingerprints |
| Linux.RemoveStep | src/platform/linux.ts:34-38 | a turn deletes exactly a matching certificate whose `rm` succeeds, and stops exactly on an unreadable `.crt` entry or a failed `rm` |
| Linux.RemoveScan | src/platform/linux.ts:34-38 | the `remove` loop as a scan over the listing; the entries kept are entries of the listing, no more of them than it has |
| Linux.RemoveScanExtend | src/platform/linux.ts:34-38 | one more turn of the `remove` loop |
| Linux.RemoveScanFailureStays | src/platform/linux.ts:33-44 | after the first error every later entry stays |
| Linux.RemoveScanDeletesOnlyMatches | src/platform/linux.ts:32-45 | `remove` deletes only matching certificates; on success no match is left and every `.crt` entry was read |
| Linux.RemoveThenNoHashes | src/platform/linux.ts:32-56 | after a successful `remove(cn)`, `getHashList(cn)` finds nothing |
| Linux.AnchorDir.RemoveTurn | src/platform/linux.ts:34-38 | one turn updates the directory and the kept entries as the scan says |
| Linux.AnchorDir.Remove | src/platform/linux.ts:32-45 | the directory becomes the scan's kept entries; the result is true exactly when no error occurred and `update-ca-certificates` succeeded; an unlistable directory gives false and no change |
| Linux.Put | src/platform/linux.ts:29 | after `cp` the listing holds the new entry, last, and no other entry of that name; every entry of another name is kept |
| Linux.AnchorDir.Add | src/platform/linux.ts:28-31 | a failing copy rejects and changes nothing; otherwise the certificate is copied to `certPath(name)`, where it is the directory's last entry, and `add` resolves exactly when the update succeeds |
| TrustedCertEngine.CertPath | src/lib/trusted-cert.ts:26 | `certPath` lies in the directory and ends in `.crt` |
| TrustedCertEngine.KeyPath | src/lib/trusted-cert.ts:27 | `keyPath` lies in the directory and ends in `.key` |
| TrustedCertEngine.PathsDiffer | src/lib/trusted-cert.ts:26-27 | a `.crt` path never equals a `.key` path, and each path names one file name |
| TrustedCertEngine.ReadCert | src/lib/trusted-cert.ts:29-31 | reading succeeds exactly on a certificate PEM; an error carries ENOENT exactly when the file is missing |
| TrustedCertEngine.ReadKey | src/lib/trusted-cert.ts:33-35 | reading succeeds exactly on a key PEM; an error carries ENOENT exactly when the file is missing |
| TrustedCertEngine.LoadCertAndKey | src/lib/trusted-cert.ts:292-305 | a pair exactly when both files hold PEM; null exactly when the certificate is missing, or present with the key missing; any other error propagates |
| TrustedCertEngine.LoadStored | src/lib/trusted-cert.ts:292-297 | a stored pair loads as itself |
| TrustedCertEngine.LoadReadsTwoPaths | src/lib/trusted-cert.ts:292-305 | only the two paths under the name are read |
| TrustedCertEngine.PlanSign | src/lib/trusted-cert.ts:160-190 | reuse exactly when overwrite is off and the stored leaf is CA-signed, valid and matches the hosts; `sign_host_empty` exactly when no leaf is used and hosts are empty; a fresh list is `hosts`, and an extended list keeps the stored hosts as a prefix followed by `getAdded` |
| TrustedCertEngine.TrustedCert.constructor | src/lib/trusted-cert.ts:62-82 | names default to "ca" and "ssl" |
| TrustedCertEngine.TrustedCert.Write | src/lib/trusted-cert.ts:37-43 | a write succeeds exactly off read-only paths and changes only its path |
| TrustedCertEngine.TrustedCert.Removed | src/lib/trusted-cert.ts:45-46 | what `rmAll` leaves: no path is added or changed, a listed path goes exactly when it is removable, and every other path stays |
| TrustedCertEngine.TrustedCert.RmAll | src/lib/trusted-cert.ts:45-46 | every removable listed path is gone, and everything else is unchanged; failures are swallowed |
| TrustedCertEngine.TrustedCert.EnsureCA | src/lib/trusted-cert.ts:315-338 | a stored CA is returned untouched; otherwise a new CA's certificate and then its key are written under `caName`; any creation failure becomes `ca_create_failed`; a load error propagates |
| TrustedCertEngine.TrustedCert.EnsuredCAIsLoaded | src/lib/trusted-cert.ts:315-338 | the CA `ensureCA` returns is what `loadCA` then finds |
| TrustedCertEngine.TrustedCert.EnsureCAIdempotent | src/lib/trusted-cert.ts:316-319 | a second `ensureCA` returns the same CA and writes nothing |
| TrustedCertEngine.TrustedCert.IsCertTrusted | src/lib/trusted-cert.ts:340-353 | false without asking the adapter for an invalid certificate; otherwise true exactly when its SHA-1 is listed under its CN; rejects when the CN is missing or the adapter rejects |
| TrustedCertEngine.TrustedCert.Trust | src/lib/trusted-cert.ts:268-286 | as written, never calls `add` and always returns false |
| TrustedCertEngine.TrustedCert.TrustIntended | src/lib/trusted-cert.ts:268-286 | with the check awaited: `add` is called exactly when the CA is not yet trusted, and the result is whether it resolved |
| TrustedCertEngine.TrustedCert.TrustNeverAdds | src/lib/trusted-cert.ts:270 | for an untrusted CA and a working `add`, the intended `trust` adds it, while the written one does not |
| TrustedCertEngine.TrustedCert.IssueLeaf | src/lib/trusted-cert.ts:192-220 | a stored key is kept and no key file is written; otherwise a fresh key is written first; then the leaf `createCert` lays out is written |
| TrustedCertEngine.TrustedCert.LeafName | src/lib/trusted-cert.ts:153-155 | a non-empty `sslName` argument names the leaf; a missing or empty one falls back to `this.sslName` |
| TrustedCertEngine.TrustedCert.SignWith | src/lib/trusted-cert.ts:153-220 | reuse writes nothing and returns the stored pair; a load error, a CN error or an empty host list writes nothing; otherwise the leaf is issued for the planned hosts |
| TrustedCertEngine.TrustedCert.Sign | src/lib/trusted-cert.ts:136-221 | `ensureCA` runs only when no CA is passed, and its error stops `sign`; the leaf is written under the `sslName` argument or `this.sslName` |
| TrustedCertEngine.TrustedCert.SignedIsLoaded | src/lib/trusted-cert.ts:192-212 | after `sign` under `this.sslName`, `loadSSL` finds the returned leaf |
| TrustedCertEngine.TrustedCert.IssuedTouchesOnlyLeaf | src/lib/trusted-cert.ts:192-212 | issuing writes only the key and certificate paths under the name |
| TrustedCertEngine.TrustedCert.SignedTouchesOnlyLeaf | src/lib/trusted-cert.ts:153-220 | `sign` writes only the key and certificate paths under the name |
| TrustedCertEngine.TrustedCert.SignElsewhereKeepsLeaf | src/lib/trusted-cert.ts:159-212 | signing under another name never changes what the next `sign` loads, because loading uses `this.sslName` |
| TrustedCertEngine.TrustedCert.SignKeepsCA | src/lib/trusted-cert.ts:136-221 | signing under a name other than the CA's leaves `loadCA` unchanged |
| TrustedCertEngine.TrustedCert.Install | src/lib/trusted-cert.ts:84-104 | `ensureCA`, then `trust`, then `sign` with that CA under `this.sslName`; the result reports trusted = false |
| TrustedCertEngine.TrustedCert.InstalledIsLoaded | src/lib/trusted-cert.ts:84-104 | after `install`, `loadCA` finds the CA and `loadSSL` the returned leaf |
| TrustedCertEngine.TrustedCert.DoTrust | src/lib/trusted-cert.ts:223-226 | `ensureCA`, then `trust`: false whenever the CA step succeeds |
| TrustedCertEngine.TrustedCert.Uninstall | src/lib/trusted-cert.ts:106-134 | if removing a trusted CA from the store throws, it returns false and deletes nothing; otherwise it deletes the CA's files when a CA is stored and always deletes the leaf's; `remove`'s boolean is ignored |
| TrustedCertEngine.TrustedCert.RemovedStaysEmpty | src/lib/trusted-cert.ts:45-46 | removing files never makes a pair appear |
| TrustedCertEngine.TrustedCert.RemovedCertIsMissing | src/lib/trusted-cert.ts:45-46 | a removed certificate file leaves nothing to load under its name |
| TrustedCertEngine.TrustedCert.UninstallForgets | src/lib/trusted-cert.ts:106-134 | after a completed `uninstall`, neither `loadCA` nor `loadSSL` finds anything |

## Left out

- RSA key generation, `cert.sign`, `ca.verify`, DER encoding, SHA-1 and PEM (de)serialisation are node-forge calls. Keys are opaque ids, and the SHA-1 and the signature check are parameters. A stored file is modelled as the object it parses to, not as PEM text.
- `isIp` (the is-ip package), `isCertValid`, and `isMatched`/`getAdded` (`src/lib/util`, not part of this model) are parameters with no properties assumed.
- `getCertSha1`, `getCertValidPeriod`, `info` and `caInfo` are not modelled (out of scope). `getCertSha1` computes the fingerprint that `isCertTrusted` compares; it is the `sha1` parameter here. `info` and `caInfo` can also throw through `loadSSL`/`loadCA` and through `getCertHosts`/`getCertCommonName`, and `caInfo` asks the adapter through `isCertTrusted`. Console output and i18n are not modelled.
- Shell commands, `readdir`/`readFile`, `rm` and `writeFileSync` are modelled by their outcome only. `ensureDirSync` is assumed to succeed.
- Promises are treated as sequential steps. The one place where a missing `await` changes behaviour, `trust`, is modelled as written; `install` and `doTrust` use that written `trust`. As a consequence of that missing `await`, a rejection of `isCertTrusted` inside `trust` is unhandled; this is not modelled.
- The constructor's default directory (`applicationConfigPath`) and its `getCertificateApi` binding are not modelled. The directory is a parameter, and the adapter's answers are `TrustStore`. The engine's trust store is not updated by `add`/`remove`; the adapter models in `darwin.dfy`, `win32.dfy` and `linux.dfy` cover those commands.
- `path.join` is modelled as `dir + "/" + file`, with no normalisation.
- Text.ToUpperAscii: upper-cases ASCII letters only; `toUpperCase` also maps other scripts.
- The order in which `readdir` lists the Linux directory is whatever order the listing is given in.

## Findings

| source | as written | input that shows it | evidently intended | confidence | as-written member | corrected member |
|---|---|---|---|---|---|---|
| src/lib/trusted-cert.ts:270 | `if (!this.isCertTrusted(ca.cert))` tests the returned Promise, which is always truthy, so `trust` never calls `api.add` and always returns false | a valid CA whose SHA-1 is not listed, with `add` resolving: written result false and `add` not called (lemma `TrustedCertEngine.TrustedCert.TrustNeverAdds`) | await the check: call `add` exactly when the CA is not trusted yet, and return whether it resolved | high, not executed | TrustedCertEngine.TrustedCert.Trust | TrustedCertEngine.TrustedCert.TrustIntended |
