/**
 * Certificate construction and read-back of `src/lib/cert.ts`.
 *
 * A certificate is a value: serial number, validity window, subject and issuer
 * attributes, extensions, the public key it certifies and the private key that
 * signed it. RSA, SHA-256 signing, DER and PEM are not modelled: keys are opaque
 * identities and "signing" records which private key signed.
 */
module Cert {
  import opened Wrappers
  import opened Seqs

  const CaCommonName: string := "generated by trusted-cert2"
  const LeafCommonName: string := "localhost"
  const CommonNameField: string := "commonName"

  const DayMs: int := 86400000
  /** Leaf lifetime: browsers refuse leaf certificates valid for 398 days or more. */
  const LeafLifetimeMs: int := 397 * DayMs
  /** CA lifetime: ten years. */
  const CaLifetimeMs: int := 3650 * DayMs

  /** GeneralName tags of section 4.2.1.6 of RFC 5280. */
  const DomainType: int := 2
  const IpType: int := 7

  datatype PrivateKey = PrivateKey(id: nat)
  datatype PublicKey = PublicKey(id: nat)
  datatype KeyPair = KeyPair(privateKey: PrivateKey, publicKey: PublicKey)

  /** `pki.rsa.setPublicKey(privateKey.n, privateKey.e)`: the public half of a private key. */
  function PublicKeyOf(key: PrivateKey): PublicKey {
    PublicKey(key.id)
  }

  datatype Attribute = Attribute(name: string, value: string)

  /** A subjectAltName entry: `{type: 2, value}` for a DNS name, `{type: 7, ip}` for an address. */
  datatype AltName = AltName(kind: int, value: string, ip: string)

  datatype Extension =
    | KeyUsage(digitalSignature: bool, keyEncipherment: bool, nonRepudiation: bool)
    | ExtKeyUsage(serverAuth: bool, clientAuth: bool)
    | SubjectAltName(altNames: seq<AltName>)
    | BasicConstraints(cA: bool)
    | OtherExtension(name: string)

  datatype Certificate = Certificate(
    serialNumber: string,
    notBefore: int,
    notAfter: int,
    subject: seq<Attribute>,
    issuer: seq<Attribute>,
    extensions: seq<Extension>,
    publicKey: PublicKey,
    signedWith: PrivateKey)

  /** `getCertCommonName` throws when the subject has no commonName. */
  datatype CertError = NoCommonName

  // ---------------------------------------------------------------------------
  // Serial numbers: `Date.getTime().toString(16)` and its padding

  /** The digits `Number.prototype.toString(16)` emits. */
  predicate IsHexDigit(c: char) {
    '0' <= c <= '9' || 'a' <= c <= 'f'
  }

  function DigitValue(c: char): nat {
    if '0' <= c <= '9' then c as int - '0' as int
    else if 'a' <= c <= 'f' then c as int - 'a' as int + 10
    else 0
  }

  function HexDigit(d: nat): (c: char)
    requires d < 16
    ensures IsHexDigit(c) && DigitValue(c) == d
  {
    if d < 10 then ('0' as int + d) as char else ('a' as int + d - 10) as char
  }

  /** The unsigned integer a string of hexadecimal digits denotes, most significant first. */
  function HexValue(s: string): nat {
    if s == [] then 0 else HexValue(s[..|s| - 1]) * 16 + DigitValue(s[|s| - 1])
  }

  function Pow16(k: nat): nat {
    if k == 0 then 1 else 16 * Pow16(k - 1)
  }

  /**
   * `n.toString(16)`: lower-case hexadecimal without leading zeros, which
   * denotes `n` again.
   */
  function Hex(n: nat): (h: string)
    ensures 1 <= |h|
    ensures IsHexString(h)
    ensures n > 0 ==> h[0] != '0'
    ensures |h| == 1 || h[0] != '0'
    ensures HexValue(h) == n
    decreases n
  {
    if n < 16 then [HexDigit(n)]
    else
      var h := Hex(n / 16) + [HexDigit(n % 16)];
      assert h[..|h| - 1] == Hex(n / 16);
      h
  }

  lemma {:induction false} HexValueLeadingZero(s: string)
    ensures HexValue("0" + s) == HexValue(s)
    decreases |s|
  {
    if s != [] {
      var t := "0" + s;
      assert t[..|t| - 1] == "0" + s[..|s| - 1];
      assert t[|t| - 1] == s[|s| - 1];
      HexValueLeadingZero(s[..|s| - 1]);
    } else {
      assert HexValue("0") == HexValue([]) * 16 + DigitValue('0');
    }
  }

  lemma {:induction false} HexLength(n: nat, k: nat)
    requires 1 <= k && n < Pow16(k)
    ensures |Hex(n)| <= k
    decreases n
  {
    if n >= 16 {
      assert n / 16 < Pow16(k - 1);
      assert 1 <= k - 1;
      HexLength(n / 16, k - 1);
    }
  }

  /** Section 4.1.2.2 of RFC 5280: a serial number takes at most 20 octets. */
  const MaxSerialOctets: nat := 20
  /** Timestamps below 16^38 leave room for the two padding digits. */
  const MaxSerialDigits: nat := 2 * MaxSerialOctets - 2

  /**
   * A DER INTEGER body (section 8.3 of X.690) that is non-negative: whole octets
   * of hexadecimal digits whose first digit is 0 to 7, so the sign bit is clear,
   * and, per section 8.3.2, no leading zero octet that the next octet's clear
   * sign bit makes redundant.
   */
  predicate IsDerSerial(s: string) {
    2 <= |s| && |s| % 2 == 0 && '0' <= s[0] <= '7'
    && (|s| == 2 || !(s[0] == '0' && s[1] == '0' && '0' <= s[2] <= '7'))
    && forall i :: 0 <= i < |s| ==> IsHexDigit(s[i])
  }

  /** What `signCert` promises about the fields it sets (src/lib/cert.ts:48-71). */
  predicate SignedAt(cert: Certificate, caPrivKey: PrivateKey, issuer: seq<Attribute>,
                     publicKey: PublicKey, now: nat, lifetime: int)
  {
    && IsDerSerial(cert.serialNumber) && HexValue(cert.serialNumber) == now
    && cert.notBefore == now && cert.notAfter == now + lifetime
    && cert.issuer == issuer
    && cert.publicKey == publicKey && cert.signedWith == caPrivKey
  }

  // ---------------------------------------------------------------------------
  // Attributes and the common name

  /** `getCertAttrs(cn)`: a subject holding the one commonName attribute `cn`. */
  function GetCertAttrs(cn: string): seq<Attribute> {
    [Attribute(CommonNameField, cn)]
  }

  predicate IsCommonNameAttr(a: Attribute) {
    a.name == CommonNameField
  }

  /** `subject.getField({name: 'commonName'})`, failing as `getCertCommonName` does. */
  function CommonName(attrs: seq<Attribute>): (r: Result<string, CertError>)
    ensures r.Err? <==> forall i :: 0 <= i < |attrs| ==> attrs[i].name != CommonNameField
    ensures r.Ok? ==> exists i :: 0 <= i < |attrs| && attrs[i] == Attribute(CommonNameField, r.value)
                                 && forall k :: 0 <= k < i ==> !IsCommonNameAttr(attrs[k])
  {
    var i := FirstIndex(attrs, IsCommonNameAttr);
    if i == -1 then Err(NoCommonName)
    else
      assert attrs[i] == Attribute(CommonNameField, attrs[i].value);
      Ok(attrs[i].value)
  }

  /** The subject `getCertAttrs(cn)` builds reads back as `cn`. */
  lemma CertAttrsReadBack(cn: string)
    ensures CommonName(GetCertAttrs(cn)) == Ok(cn)
  {
    assert IsCommonNameAttr(GetCertAttrs(cn)[0]);
  }

  /** `getCertCommonName(cert)`. */
  function GetCertCommonName(cert: Certificate): (r: Result<string, CertError>)
    ensures r.Err? <==> forall i :: 0 <= i < |cert.subject| ==> cert.subject[i].name != CommonNameField
  {
    CommonName(cert.subject)
  }

  // ---------------------------------------------------------------------------
  // signCert and createCACert

  /**
   * The serial number `signCert` sets (src/lib/cert.ts:55-62): the timestamp in
   * hexadecimal, with "0" prepended to fill the first octet or "00" prepended to
   * clear the sign bit.
   */
  function SerialNumber(now: nat): (serial: string)
    ensures IsDerSerial(serial) && HexValue(serial) == now
    ensures serial in {Hex(now), "0" + Hex(now), "00" + Hex(now)}
    ensures now < Pow16(MaxSerialDigits) ==> |serial| <= 2 * MaxSerialOctets
  {
    var hex := Hex(now);
    assert now < Pow16(MaxSerialDigits) ==> |hex| <= MaxSerialDigits by {
      if now < Pow16(MaxSerialDigits) {
        HexLength(now, MaxSerialDigits);
      }
    }
    if |hex| % 2 == 1 then
      PadToOctets(hex);
      "0" + hex
    else if hex[0] as int >= 0x38 then
      PadSignOctet(hex);
      "00" + hex
    else
      NoPadding(hex);
      hex
  }

  /**
   * `signCert` (src/lib/cert.ts:31-74). The optional arguments default as in the
   * source: issuer and subject to the CA's and the leaf's common name, no
   * extensions, and a 397-day lifetime.
   */
  method SignCert(caPrivKey: PrivateKey, caCertAttrs: Option<seq<Attribute>>, publicKey: PublicKey,
                  certAttrs: Option<seq<Attribute>>, extensions: Option<seq<Extension>>,
                  expiresIn: Option<int>, now: nat)
    returns (cert: Certificate)
    ensures SignedAt(cert, caPrivKey, caCertAttrs.GetOr(GetCertAttrs(CaCommonName)), publicKey,
                     now, expiresIn.GetOr(LeafLifetimeMs))
    ensures cert.serialNumber == SerialNumber(now)
    ensures cert.subject == certAttrs.GetOr(GetCertAttrs(LeafCommonName))
    ensures cert.extensions == extensions.GetOr([])
  {
    cert := Certificate(
      SerialNumber(now),
      now,
      now + expiresIn.GetOr(LeafLifetimeMs),
      certAttrs.GetOr(GetCertAttrs(LeafCommonName)),
      caCertAttrs.GetOr(GetCertAttrs(CaCommonName)),
      extensions.GetOr([]),
      publicKey,
      caPrivKey);
  }

  predicate IsHexString(h: string) {
    forall i :: 0 <= i < |h| ==> IsHexDigit(h[i])
  }

  /** An odd number of digits takes one leading "0" to fill whole octets. */
  lemma PadToOctets(h: string)
    requires |h| % 2 == 1 && IsHexString(h) && (|h| == 1 || h[0] != '0')
    ensures IsDerSerial("0" + h) && HexValue("0" + h) == HexValue(h)
  {
    HexValueLeadingZero(h);
    assert forall i :: 0 < i < |"0" + h| ==> ("0" + h)[i] == h[i - 1];
  }

  /** Whole octets whose first digit sets the sign bit take a leading zero octet. */
  lemma PadSignOctet(h: string)
    requires |h| % 2 == 0 && 1 <= |h| && h[0] as int >= 0x38 && IsHexString(h)
    ensures IsDerSerial("00" + h) && HexValue("00" + h) == HexValue(h)
  {
    HexValueLeadingZero(h);
    HexValueLeadingZero("0" + h);
    assert "00" + h == "0" + ("0" + h);
    assert forall i :: 1 < i < |"00" + h| ==> ("00" + h)[i] == h[i - 2];
  }

  /** Whole octets whose first digit is 0 to 7 are already a non-negative INTEGER. */
  lemma NoPadding(h: string)
    requires |h| % 2 == 0 && 1 <= |h| && h[0] as int < 0x38 && IsHexString(h) && h[0] != '0'
    ensures IsDerSerial(h)
  {
  }

  /** What `createCACert` lays out: a self-issued CA certificate valid for ten years. */
  predicate CaCertFor(cert: Certificate, keys: KeyPair, now: nat) {
    && cert.subject == GetCertAttrs(CaCommonName)
    && cert.extensions == [BasicConstraints(true)]
    && SignedAt(cert, keys.privateKey, GetCertAttrs(CaCommonName), keys.publicKey, now, CaLifetimeMs)
  }

  /** `createCACert` (src/lib/cert.ts:76-89). */
  method CreateCACert(keys: KeyPair, now: nat) returns (cert: Certificate)
    ensures CaCertFor(cert, keys, now)
    ensures GetCertCommonName(cert) == Ok(CaCommonName) && cert.issuer == cert.subject
    ensures cert.signedWith == keys.privateKey && cert.publicKey == keys.publicKey
  {
    cert := SignCert(keys.privateKey, None, keys.publicKey, Some(GetCertAttrs(CaCommonName)),
                     Some([BasicConstraints(true)]), Some(CaLifetimeMs), now);
    CertAttrsReadBack(CaCommonName);
  }

  // ---------------------------------------------------------------------------
  // createCert: host layout

  /** `hosts.findIndex((host) => !isIp(host))`. */
  function DomainIndex(hosts: seq<string>, isIp: string -> bool): (d: int)
    ensures -1 <= d < |hosts|
    ensures d == -1 <==> forall i :: 0 <= i < |hosts| ==> isIp(hosts[i])
    ensures 0 <= d ==> !isIp(hosts[d]) && forall i :: 0 <= i < d ==> isIp(hosts[i])
  {
    FirstIndex(hosts, h => !isIp(h))
  }

  /** The subject CN of a leaf: the first non-IP host, or "localhost". */
  function LeafCommonNameFor(hosts: seq<string>, isIp: string -> bool): (cn: string)
    ensures (exists i :: 0 <= i < |hosts| && !isIp(hosts[i])) ==> cn in hosts && !isIp(cn)
    ensures (forall i :: 0 <= i < |hosts| ==> isIp(hosts[i])) ==> cn == LeafCommonName
    ensures forall i :: 0 <= i < |hosts| && !isIp(hosts[i]) && (forall k :: 0 <= k < i ==> isIp(hosts[k])) ==>
              cn == hosts[i]
  {
    var d := DomainIndex(hosts, isIp);
    if d == -1 then LeafCommonName else hosts[d]
  }

  /** The SAN entry of one host. */
  function AltNameFor(host: string, isIp: string -> bool): AltName {
    if isIp(host) then AltName(IpType, "", host) else AltName(DomainType, host, "")
  }

  function AltNamesFor(hosts: seq<string>, isIp: string -> bool): (alts: seq<AltName>)
    ensures |alts| == |hosts|
  {
    seq(|hosts|, j requires 0 <= j < |hosts| => AltNameFor(hosts[j], isIp))
  }

  lemma AltNamesForSnoc(hosts: seq<string>, host: string, isIp: string -> bool)
    ensures AltNamesFor(hosts + [host], isIp) == AltNamesFor(hosts, isIp) + [AltNameFor(host, isIp)]
  {
  }

  /** keyUsage and extKeyUsage, present on every leaf. */
  const LeafUsages: seq<Extension> :=
    [KeyUsage(true, true, true), ExtKeyUsage(true, true)]

  /** The leaf's extensions: the two usages, then the SAN when some host is left for it. */
  function LeafExtensions(hosts: seq<string>, isIp: string -> bool): seq<Extension> {
    var alts := AltNamesFor(Without(hosts, DomainIndex(hosts, isIp)), isIp);
    LeafUsages + (if alts == [] then [] else [SubjectAltName(alts)])
  }

  /**
   * What `createCert` lays out (src/lib/cert.ts:104-145): the CN, every other host
   * in the SAN in input order (omitted when there is none), the two usage
   * extensions, and the fields `signCert` sets.
   */
  predicate LeafFor(cert: Certificate, caPrivKey: PrivateKey, caCertAttrs: Option<seq<Attribute>>,
                    publicKey: PublicKey, hosts: seq<string>, expiresIn: Option<int>,
                    isIp: string -> bool, now: nat)
  {
    && cert.subject == GetCertAttrs(LeafCommonNameFor(hosts, isIp))
    && cert.extensions == LeafExtensions(hosts, isIp)
    && SignedAt(cert, caPrivKey, caCertAttrs.GetOr(GetCertAttrs(CaCommonName)), publicKey,
                now, expiresIn.GetOr(LeafLifetimeMs))
  }

  /**
   * The `forEach` of `createCert` (src/lib/cert.ts:121-129): one SAN entry per
   * host except the one at `domainIndex`, in input order.
   */
  method SanEntries(hosts: seq<string>, domainIndex: int, isIp: string -> bool) returns (altNames: seq<AltName>)
    ensures altNames == AltNamesFor(Without(hosts, domainIndex), isIp)
  {
    altNames := [];
    for i := 0 to |hosts|
      invariant altNames == AltNamesFor(Without(hosts[..i], domainIndex), isIp)
    {
      WithoutPrefixStep(hosts, i, domainIndex);
      AltNamesForSnoc(Without(hosts[..i], domainIndex), hosts[i], isIp);
      if i == domainIndex {
        continue;
      }
      if isIp(hosts[i]) {
        altNames := altNames + [AltName(IpType, "", hosts[i])];
      } else {
        altNames := altNames + [AltName(DomainType, hosts[i], "")];
      }
    }
    assert hosts[..|hosts|] == hosts;
  }

  /** `createCert` (src/lib/cert.ts:91-146). */
  method CreateCert(caPrivKey: PrivateKey, caCertAttrs: Option<seq<Attribute>>, publicKey: PublicKey,
                    hosts: seq<string>, expiresIn: Option<int>, isIp: string -> bool, now: nat)
    returns (cert: Certificate)
    ensures LeafFor(cert, caPrivKey, caCertAttrs, publicKey, hosts, expiresIn, isIp, now)
  {
    var domainIndex := DomainIndex(hosts, isIp);
    var cn := LeafCommonNameFor(hosts, isIp);
    var attributes := GetCertAttrs(cn);
    var extensions := LeafUsages;

    var altNames := SanEntries(hosts, domainIndex, isIp);
    if |altNames| > 0 {
      extensions := extensions + [SubjectAltName(altNames)];
    }
    assert extensions == LeafExtensions(hosts, isIp);
    cert := SignCert(caPrivKey, caCertAttrs, publicKey, Some(attributes), Some(extensions), expiresIn, now);
  }

  // ---------------------------------------------------------------------------
  // getCertHosts: read-back

  predicate IsSanExtension(e: Extension) {
    e.SubjectAltName?
  }

  /** `cert.getExtension('subjectAltName')?.altNames`, or no entries. */
  function SubjectAltNames(cert: Certificate): seq<AltName> {
    var i := FirstIndex(cert.extensions, IsSanExtension);
    if i == -1 then [] else cert.extensions[i].altNames
  }

  /** The host an entry contributes: its `value` for type 2, its `ip` for type 7, none otherwise. */
  function HostsOfAltName(a: AltName): seq<string> {
    if a.kind == DomainType then [a.value]
    else if a.kind == IpType then [a.ip]
    else []
  }

  function SanHosts(alts: seq<AltName>): (hosts: seq<string>)
    ensures |hosts| <= |alts|
  {
    if alts == [] then [] else HostsOfAltName(alts[0]) + SanHosts(alts[1..])
  }

  lemma {:induction false} SanHostsAppend(a: seq<AltName>, b: seq<AltName>)
    ensures SanHosts(a + b) == SanHosts(a) + SanHosts(b)
  {
    if a == [] {
      assert a + b == b;
    } else {
      assert (a + b)[0] == a[0];
      assert (a + b)[1..] == a[1..] + b;
      SanHostsAppend(a[1..], b);
    }
  }

  /** How the hosts read back grow as a loop walks the entries from left to right. */
  lemma SanHostsPrefixStep(alts: seq<AltName>, k: nat)
    requires k < |alts|
    ensures SanHosts(alts[..k + 1]) == SanHosts(alts[..k]) + HostsOfAltName(alts[k])
  {
    assert alts[..k + 1] == alts[..k] + [alts[k]];
    SanHostsAppend(alts[..k], [alts[k]]);
    assert SanHosts([alts[k]]) == HostsOfAltName(alts[k]) + SanHosts([]);
  }

  /** Reading back the entries `createCert` writes gives the hosts they were made from. */
  lemma {:induction false} SanHostsOfAltNames(hosts: seq<string>, isIp: string -> bool)
    ensures SanHosts(AltNamesFor(hosts, isIp)) == hosts
  {
    if hosts != [] {
      var alts := AltNamesFor(hosts, isIp);
      assert alts[1..] == AltNamesFor(hosts[1..], isIp);
      SanHostsOfAltNames(hosts[1..], isIp);
      assert HostsOfAltName(alts[0]) == [hosts[0]];
      assert hosts == [hosts[0]] + hosts[1..];
    }
  }

  /**
   * `getCertHosts` as a value: the common name, then the host of every SAN entry
   * of type 2 or 7 in stored order. It fails exactly when the CN is missing, and
   * otherwise always reports the CN first.
   */
  function CertHosts(cert: Certificate): (r: Result<seq<string>, CertError>)
    ensures r.Err? <==> GetCertCommonName(cert).Err?
    ensures r.Ok? ==> 1 <= |r.value| <= 1 + |SubjectAltNames(cert)|
    ensures r.Ok? ==> r.value[0] == GetCertCommonName(cert).value
  {
    match GetCertCommonName(cert)
    case Err(e) => Err(e)
    case Ok(cn) => Ok([cn] + SanHosts(SubjectAltNames(cert)))
  }

  /** The `forEach` of `getCertHosts` (src/lib/cert.ts:163-169): the host of every entry of type 2 or 7, in order. */
  method CollectSanHosts(altNames: seq<AltName>) returns (hosts: seq<string>)
    ensures hosts == SanHosts(altNames)
  {
    hosts := [];
    for k := 0 to |altNames|
      invariant hosts == SanHosts(altNames[..k])
    {
      SanHostsPrefixStep(altNames, k);
      if altNames[k].kind == DomainType {
        hosts := hosts + [altNames[k].value];
      } else if altNames[k].kind == IpType {
        hosts := hosts + [altNames[k].ip];
      }
    }
    assert altNames[..|altNames|] == altNames;
  }

  /** `getCertHosts` (src/lib/cert.ts:151-172). */
  method GetCertHosts(cert: Certificate) returns (r: Result<seq<string>, CertError>)
    ensures r == CertHosts(cert)
  {
    var cn := GetCertCommonName(cert);
    if cn.Err? {
      return Err(cn.error);
    }
    var result := [cn.value];
    var i := FirstIndex(cert.extensions, IsSanExtension);
    if i != -1 {
      var sanHosts := CollectSanHosts(cert.extensions[i].altNames);
      result := result + sanHosts;
    } else {
      assert result == [cn.value] + SanHosts([]);
    }
    return Ok(result);
  }

  /**
   * Round trip: what `createCert` lays out, `getCertHosts` reads back as the CN
   * followed by every other host in input order.
   */
  lemma LeafHostsRoundTrip(cert: Certificate, caPrivKey: PrivateKey, caCertAttrs: Option<seq<Attribute>>,
                           publicKey: PublicKey, hosts: seq<string>, expiresIn: Option<int>,
                           isIp: string -> bool, now: nat)
    requires LeafFor(cert, caPrivKey, caCertAttrs, publicKey, hosts, expiresIn, isIp, now)
    ensures CertHosts(cert) == Ok([LeafCommonNameFor(hosts, isIp)] + Without(hosts, DomainIndex(hosts, isIp)))
  {
    var rest := Without(hosts, DomainIndex(hosts, isIp));
    var alts := AltNamesFor(rest, isIp);
    assert cert.extensions == LeafUsages + (if alts == [] then [] else [SubjectAltName(alts)]);
    CertAttrsReadBack(LeafCommonNameFor(hosts, isIp));
    SanHostsOfAltNames(rest, isIp);
    if alts == [] {
      assert rest == [];
      assert !IsSanExtension(cert.extensions[0]) && !IsSanExtension(cert.extensions[1]);
      assert SubjectAltNames(cert) == [];
    } else {
      assert !IsSanExtension(cert.extensions[0]) && !IsSanExtension(cert.extensions[1]);
      assert IsSanExtension(cert.extensions[2]);
      assert SubjectAltNames(cert) == alts;
    }
  }

  /**
   * The hosts read back from a new leaf are the requested hosts, rearranged, with
   * "localhost" added in front when every host is an IP address.
   */
  lemma LeafHostsPermutation(hosts: seq<string>, isIp: string -> bool)
    ensures var d := DomainIndex(hosts, isIp);
            var read := [LeafCommonNameFor(hosts, isIp)] + Without(hosts, d);
            if d == -1 then read == [LeafCommonName] + hosts
            else multiset(read) == multiset(hosts)
  {
  }

  /** `createCACert` lays out a self-issued certificate whose CN is the CA's. */
  lemma CaCertSelfIssued(cert: Certificate, keys: KeyPair, now: nat)
    requires CaCertFor(cert, keys, now)
    ensures GetCertCommonName(cert) == Ok(CaCommonName)
    ensures cert.issuer == cert.subject
    ensures BasicConstraints(true) in cert.extensions
    ensures cert.notAfter - cert.notBefore == 3650 * 86400000
  {
    CertAttrsReadBack(CaCommonName);
  }
}
