/**
 The identity in a server certificate: the subject alternative name extension that the esp32
 provisioner writes (section 4.2.1.6 of RFC 5280, with the short-form lengths of section 8.1.3 of
 ITU-T X.690), the match against a wanted identity, and the decision to keep a certificate.
 */
module SubjectAltName {
  import opened Pattern

  /** An IPv4 address as lwIP keeps it: its first byte is the lowest. */
  type Ipv4 = ip: int | 0 <= ip < 0x1_0000_0000

  function IpBytes(ip: Ipv4): bytes {
    [ip % 256, ip / 0x100 % 256, ip / 0x1_0000 % 256, ip / 0x100_0000 % 256]
  }

  function IpValue(b: bytes): int
    requires |b| == 4
  {
    b[0] as int + b[1] as int * 0x100 + b[2] as int * 0x1_0000 + b[3] as int * 0x100_0000
  }

  /** A byte string is an address's if and only if its value is the address. */
  lemma IpRoundTrip(ip: Ipv4, b: bytes)
    requires |b| == 4
    ensures IpValue(b) == ip <==> b == IpBytes(ip)
  {
    Digits(b[0], b[1], b[2], b[3]);
    Horner(ip);
    assert b == [b[0], b[1], b[2], b[3]];
  }

  lemma Horner(ip: Ipv4)
    ensures IpValue(IpBytes(ip)) == ip
  {
    var q := ip / 256;
    assert ip / 0x1_0000 == q / 256 && ip / 0x100_0000 == q / 256 / 256;
  }

  lemma Digits(b0: int, b1: int, b2: int, b3: int)
    requires 0 <= b0 < 256 && 0 <= b1 < 256 && 0 <= b2 < 256 && 0 <= b3 < 256
    ensures var v := b0 + b1 * 0x100 + b2 * 0x1_0000 + b3 * 0x100_0000;
      v < 0x1_0000_0000 && IpBytes(v) == [b0, b1, b2, b3]
  {
    var v := b0 + b1 * 0x100 + b2 * 0x1_0000 + b3 * 0x100_0000;
    assert v == b0 + 256 * (b1 + b2 * 0x100 + b3 * 0x1_0000);
    assert v / 0x100 == b1 + 256 * (b2 + b3 * 0x100);
    assert v / 0x1_0000 == b2 + 256 * b3;
    assert v / 0x100_0000 == b3;
  }

  /** A name in the list: its tag and its contents. */
  datatype Name = Name(tag: byte, value: bytes)

  const IP_TAG: byte := 0x87
  const DNS_TAG: byte := 0x82

  /** The names an identity stands for. */
  function Names(ip: Ipv4, dns: CString): seq<Name> {
    (if ip != 0 then [Name(IP_TAG, IpBytes(ip))] else []) + (if dns != [] then [Name(DNS_TAG, dns)] else [])
  }

  function InnerLen(ip: Ipv4, dns: CString): nat {
    (if ip != 0 then 6 else 0) + (if dns != [] then 2 + |dns| else 0)
  }

  /** The identities that the short-form encoding can carry. */
  predicate Encodable(ip: Ipv4, dns: CString) { 0 < InnerLen(ip, dns) <= 127 }

  /** One name in DER, short form. */
  function EncodeName(n: Name): bytes
    requires |n.value| < 128
  {
    [n.tag, |n.value|] + n.value
  }

  function EncodeNames(names: seq<Name>): bytes
    requires forall i :: 0 <= i < |names| ==> |names[i].value| < 128
  {
    if names == [] then [] else EncodeName(names[0]) + EncodeNames(names[1..])
  }

  /** The DER reader: names one after the other, each within what is left. */
  function DecodeNames(s: bytes): Option<seq<Name>> {
    if s == [] then Some([])
    else if |s| < 2 || s[1] >= 128 || 2 + s[1] > |s| then None
    else
      match DecodeNames(s[2 + s[1]..])
      case None => None
      case Some(rest) => Some([Name(s[0], s[2..2 + s[1]])] + rest)
  }

  function Decode(s: bytes): Option<seq<Name>> {
    if |s| < 2 || s[0] != 0x30 || s[1] >= 128 || |s| != 2 + s[1] then None else DecodeNames(s[2..])
  }

  /** A short name in front of anything is decoded first. */
  lemma DecodeFirst(n: Name, rest: bytes)
    requires |n.value| < 128
    ensures DecodeNames([n.tag, |n.value|] + n.value + rest) ==
            match DecodeNames(rest) {
              case Some(more) => Some([n] + more)
              case None => None
            }
  {
    var s := [n.tag, |n.value|] + n.value + rest;
    assert s[0] == n.tag && s[1] == |n.value|;
    assert s[2..2 + |n.value|] == n.value && s[2 + |n.value|..] == rest;
  }

  /** Any list of short names is read back as it was. */
  lemma {:induction false} NamesRoundTrip(names: seq<Name>)
    requires forall i :: 0 <= i < |names| ==> |names[i].value| < 128
    ensures DecodeNames(EncodeNames(names)) == Some(names)
    decreases |names|
  {
    hide EncodeNames, DecodeNames, EncodeName;
    if names == [] {
      NoNames();
    } else {
      EncodeFirst(names);
      NamesRoundTrip(names[1..]);
      DecodeFirst(names[0], EncodeNames(names[1..]));
      assert names == [names[0]] + names[1..];
    }
  }

  lemma NoNames()
    ensures EncodeNames([]) == [] && DecodeNames([]) == Some([])
  {
  }

  lemma EncodeFirst(names: seq<Name>)
    requires names != [] && forall i :: 0 <= i < |names| ==> |names[i].value| < 128
    ensures EncodeNames(names) == [names[0].tag, |names[0].value|] + names[0].value + EncodeNames(names[1..])
  {
  }

  /** The extension for an identity. */
  function Extension(ip: Ipv4, dns: CString): bytes
    requires Encodable(ip, dns)
  {
    [0x30, InnerLen(ip, dns)] + EncodeNames(Names(ip, dns))
  }

  lemma ExtensionParts(ip: Ipv4, dns: CString)
    requires Encodable(ip, dns)
    ensures |EncodeNames(Names(ip, dns))| == InnerLen(ip, dns)
    ensures EncodeNames(Names(ip, dns)) == IpPart(ip) + DnsPart(dns)
  {
    var d := [Name(DNS_TAG, dns)];
    var i := [Name(IP_TAG, IpBytes(ip))];
    assert Names(ip, dns) == if ip == 0 then d else if dns == [] then i else i + d;
    assert d[1..] == [] && i[1..] == [] && (i + d)[1..] == d && (i + d)[0] == i[0];
    if dns != [] {
      assert EncodeNames(d) == EncodeName(d[0]) + [];
    }
    if ip != 0 {
      assert EncodeNames(i) == EncodeName(i[0]) + [];
      if dns != [] {
        assert EncodeNames(i + d) == EncodeName(i[0]) + EncodeNames(d);
      }
    }
  }

  /** Copies `src` to `pos` and moves on. */
  method Put(out: array<byte>, pos: nat, src: bytes) returns (next: nat)
    requires pos + |src| <= out.Length
    modifies out
    ensures next == pos + |src|
    ensures out[..next] == old(out[..pos]) + src
    ensures out[next..] == old(out[next..])
  {
    forall i | 0 <= i < |src| {
      out[pos + i] := src[i];
    }
    next := pos + |src|;
  }

  /** Writes the extension at the front of the buffer, or nothing when it cannot be written. */
  method EncodeSanExtension(out: array<byte>, ip: Ipv4, dns: CString) returns (n: nat)
    modifies out
    ensures n == if Encodable(ip, dns) && 2 + InnerLen(ip, dns) <= out.Length then 2 + InnerLen(ip, dns) else 0
    ensures n > 0 ==> out[..n] == Extension(ip, dns)
    ensures out[n..] == old(out[n..])
  {
    var needIp, needDns := ip != 0, dns != [];
    var innerLen := (if needIp then 6 else 0) + (if needDns then 2 + |dns| else 0);
    if innerLen == 0 || innerLen > 127 {
      return 0;
    }
    if 2 + innerLen > out.Length {
      return 0;
    }
    ExtensionParts(ip, dns);
    assert Encodable(ip, dns) && innerLen == InnerLen(ip, dns);
    assert Extension(ip, dns) == [0x30, innerLen] + IpPart(ip) + DnsPart(dns);
    assert |IpPart(ip)| == (if needIp then 6 else 0) && |DnsPart(dns)| == if needDns then 2 + |dns| else 0;
    hide *;
    n := PutAll(out, innerLen, ip, dns);
  }

  /** What is behind the second of two writes was behind the first one too. */
  lemma BehindBoth(was: bytes, mid: bytes, now: bytes, i: nat, j: nat)
    requires i <= j <= |was| == |mid| == |now| && mid[i..] == was[i..] && now[j..] == mid[j..]
    ensures now[j..] == was[j..]
  {
    assert mid[j..] == mid[i..][j - i..];
    assert was[j..] == was[i..][j - i..];
  }

  /** The parts of the extension, one behind the other. */
  method PutAll(out: array<byte>, innerLen: byte, ip: Ipv4, dns: CString) returns (next: nat)
    requires |dns| < 256 && 2 + |IpPart(ip)| + |DnsPart(dns)| <= out.Length
    modifies out
    ensures next == 2 + |IpPart(ip)| + |DnsPart(dns)|
    ensures out[..next] == [0x30, innerLen] + IpPart(ip) + DnsPart(dns)
    ensures out[next..] == old(out[next..])
  {
    hide *;
    ghost var was := out[..];
    var one := Put(out, 0, [0x30, innerLen]);
    ghost var mid := out[..];
    var two := PutIp(out, one, ip);
    BehindBoth(was, mid, out[..], one, two);
    mid := out[..];
    next := PutDns(out, two, dns);
    BehindBoth(was, mid, out[..], two, next);
  }

  function IpPart(ip: Ipv4): bytes { if ip != 0 then [IP_TAG, 4] + IpBytes(ip) else [] }

  function DnsPart(dns: CString): bytes
    requires |dns| < 256
  {
    if dns != [] then [DNS_TAG, |dns|] + dns else []
  }

  method PutIp(out: array<byte>, pos: nat, ip: Ipv4) returns (next: nat)
    requires pos + |IpPart(ip)| <= out.Length
    modifies out
    ensures next == pos + |IpPart(ip)| && out[..next] == old(out[..pos]) + IpPart(ip)
    ensures out[next..] == old(out[next..])
  {
    next := pos;
    if ip != 0 {
      next := Put(out, next, [IP_TAG, 4]);
      ghost var mid := out[..];
      next := Put(out, next, IpBytes(ip));
      assert out[next..] == mid[next..];
    }
  }

  method PutDns(out: array<byte>, pos: nat, dns: CString) returns (next: nat)
    requires |dns| < 256 && pos + |DnsPart(dns)| <= out.Length
    modifies out
    ensures next == pos + |DnsPart(dns)| && out[..next] == old(out[..pos]) + DnsPart(dns)
    ensures out[next..] == old(out[next..])
  {
    next := pos;
    if dns != [] {
      next := Put(out, next, [DNS_TAG, |dns|]);
      ghost var mid, at := out[..], next;
      next := Put(out, next, dns);
      assert out[next..] == mid[next..] == mid[at..][next - at..];
    }
  }

  /** The tag of an IP address or a DNS name: context-specific, numbers 7 and 2. */
  predicate Tagged(tag: byte, number: byte) { tag / 64 == 2 && tag % 32 == number }

  /** These are the tags that count as an address and as a DNS name, primitive or constructed. */
  lemma TagsAre(tag: byte)
    ensures Tagged(tag, 7) <==> tag == 0x87 || tag == 0xA7
    ensures Tagged(tag, 2) <==> tag == 0x82 || tag == 0xA2
  {
    var class_, rest := tag / 32, tag % 32;
    assert tag == 32 * class_ + rest && tag / 64 == class_ / 2;
  }

  predicate IsIp(n: Name, ip: Ipv4) { Tagged(n.tag, 7) && |n.value| == 4 && IpValue(n.value) == ip }

  predicate IsDns(n: Name, dns: bytes) { Tagged(n.tag, 2) && n.value == dns }

  ghost predicate Matches(names: seq<Name>, ip: Ipv4, dns: CString) {
    && (ip == 0 || exists i :: 0 <= i < |names| && IsIp(names[i], ip))
    && (dns == [] || exists i :: 0 <= i < |names| && IsDns(names[i], dns))
  }

  method SanMatches(names: seq<Name>, ip: Ipv4, dns: CString) returns (matched: bool)
    ensures matched == Matches(names, ip, dns)
  {
    var needIp, needDns := ip != 0, dns != [];
    if !needIp && !needDns {
      return true;
    }
    var foundIp, foundDns := false, false;
    for i := 0 to |names|
      invariant needIp ==> (foundIp <==> exists j :: 0 <= j < i && IsIp(names[j], ip))
      invariant needDns ==> (foundDns <==> exists j :: 0 <= j < i && IsDns(names[j], dns))
    {
      var cur := names[i];
      if Tagged(cur.tag, 7) {
        if needIp && |cur.value| == 4 && IpValue(cur.value) == ip {
          foundIp := true;
        }
      } else if Tagged(cur.tag, 2) {
        if needDns && cur.value == dns {
          foundDns := true;
        }
      }
    }
    return (!needIp || foundIp) && (!needDns || foundDns);
  }

  lemma NamesShort(ip: Ipv4, dns: CString)
    requires Encodable(ip, dns)
    ensures forall i :: 0 <= i < |Names(ip, dns)| ==> |Names(ip, dns)[i].value| < 128
  {
  }

  /** The names of one identity answer for exactly the identities it includes. */
  lemma NamesMatch(ip: Ipv4, dns: CString, ip': Ipv4, dns': CString)
    ensures Matches(Names(ip, dns), ip', dns') <==> (ip' == 0 || ip' == ip) && (dns' == [] || dns' == dns)
  {
    var names := Names(ip, dns);
    IpRoundTrip(ip, IpBytes(ip));
    hide IpValue, IpBytes;
    if ip' != 0 && ip' == ip {
      assert IsIp(names[0], ip');
    }
    if dns' != [] && dns' == dns {
      assert IsDns(names[|names| - 1], dns');
    }
  }

  /**
   The round trip: what was encoded decodes, and the decoded names match a wanted identity if and only
   if each part that is asked for is the one that was encoded.
   */
  lemma SanRoundTrip(ip: Ipv4, dns: CString, ip': Ipv4, dns': CString)
    requires Encodable(ip, dns)
    ensures Decode(Extension(ip, dns)) == Some(Names(ip, dns))
    ensures Matches(Decode(Extension(ip, dns)).value, ip', dns') <==> (ip' == 0 || ip' == ip) && (dns' == [] || dns' == dns)
  {
    NamesShort(ip, dns);
    ExtensionParts(ip, dns);
    NamesRoundTrip(Names(ip, dns));
    assert Extension(ip, dns)[2..] == EncodeNames(Names(ip, dns));
    NamesMatch(ip, dns, ip', dns');
  }

  /**
   The bytes of the extension, as section 4.2.1.6 of RFC 5280 has them: a sequence, in it the address under
   tag [7] with the byte first that is lowest in `ip`, then the name under tag [2].
   */
  lemma ExtensionLayout(ip: Ipv4, dns: CString)
    requires Encodable(ip, dns)
    ensures var x := Extension(ip, dns);
      && |x| == 2 + (if ip != 0 then 6 else 0) + (if dns != [] then 2 + |dns| else 0)
      && x[0] == 0x30 && x[1] == |x| - 2
      && (ip != 0 ==> x[2] == 0x87 && x[3] == 4 && Lowest(ip, x[4..8]))
      && (dns != [] ==> x[|x| - |dns|..] == dns && x[|x| - |dns| - 1] == |dns| && x[|x| - |dns| - 2] == 0x82)
  {
    ExtensionParts(ip, dns);
    IpRoundTrip(ip, IpBytes(ip));
    var x, ipPart, dnsPart := Extension(ip, dns), IpPart(ip), DnsPart(dns);
    assert x == [0x30, InnerLen(ip, dns)] + ipPart + dnsPart;
    assert ip != 0 ==> |ipPart| == 6 && ipPart[0] == 0x87 && ipPart[1] == 4 && ipPart[2..] == IpBytes(ip);
    assert dns != [] ==> |dnsPart| == 2 + |dns| && dnsPart[0] == 0x82 && dnsPart[1] == |dns| && dnsPart[2..] == dns;
    hide IpBytes, Extension, IpPart, DnsPart, IpValue;
    Behind([0x30, InnerLen(ip, dns)], ipPart, dnsPart);
    if ip != 0 {
      assert x[4..8] == ipPart[2..];
    }
    if dns != [] {
      assert x[|x| - |dns|..] == dnsPart[2..];
    }
  }

  /** The address, its lowest byte first. */
  predicate Lowest(ip: Ipv4, b: bytes) {
    |b| == 4 && ip == b[0] as int + 0x100 * b[1] as int + 0x1_0000 * b[2] as int + 0x100_0000 * b[3] as int
  }

  lemma Behind(a: bytes, b: bytes, c: bytes)
    ensures (a + b + c)[|a|..|a| + |b|] == b && (a + b + c)[|a| + |b|..] == c
  {
  }

  const SAN_BUF_SIZE := 256

  /** What loading the certificate file gives. */
  datatype Stored = Unreadable | Readable(names: seq<Name>)

  /** The certificate file and whether there is a key file. */
  datatype Files = Files(cert: Option<Stored>, key: bool)

  /**
   How a generation goes after the extension: it fails before a file is touched, while the first or the
   second is written, or not at all; but a write counts as done when it is short, and then the
   certificate file holds something else.
   */
  datatype Fate =
    | NothingWritten
    | CertHalfWritten(cert: Option<Stored>)
    | KeyHalfWritten(key: bool)
    | BothWritten(whole: bool, left: Stored)

  /** A certificate file with this extension, as it is loaded again. */
  function Reloaded(extension: bytes): Stored {
    match Decode(extension)
    case Some(names) => Readable(names)
    case None => Unreadable
  }

  function Generated(f: Files, ip: Ipv4, dns: CString, fate: Fate): (Files, bool) {
    if !Encodable(ip, dns) then (f, false)
    else
      match fate
      case NothingWritten => (f, false)
      case CertHalfWritten(cert) => (f.(cert := cert), false)
      case KeyHalfWritten(key) => (Files(Some(Reloaded(Extension(ip, dns))), key), false)
      case BothWritten(whole, left) => (Files(Some(if whole then Reloaded(Extension(ip, dns)) else left), true), true)
  }

  /** A generation succeeds exactly when the names fit and both files are written; what it did not get to stays. */
  lemma GeneratedSucceeds(f: Files, ip: Ipv4, dns: CString, fate: Fate)
    ensures var (f', ok) := Generated(f, ip, dns, fate);
            && (ok <==> 0 < InnerLen(ip, dns) <= 127 && fate.BothWritten?)
            && (ok ==> f'.key && f'.cert.Some?)
            && (!ok && f' != f ==> fate.CertHalfWritten? || fate.KeyHalfWritten?)
            && (f'.key != f.key ==> fate.KeyHalfWritten? || fate.BothWritten?)
  {
    hide Reloaded, Extension;
  }

  /** The files hold a certificate that already answers for the identity. */
  ghost predicate Current(f: Files, ip: Ipv4, dns: CString) {
    f.key && f.cert.Some? && f.cert.value.Readable? && Matches(f.cert.value.names, ip, dns)
  }

  ghost function Ensured(f: Files, ip: Ipv4, dns: CString, fate: Fate): (Files, bool) {
    if ip == 0 && dns == [] then (f, false)
    else if Current(f, ip, dns) then (f, true)
    else Generated(f, ip, dns, fate)
  }

  /** A certificate that was written whole is current for exactly the identities its own includes. */
  lemma GeneratedIsCurrent(f: Files, ip: Ipv4, dns: CString, left: Stored, ip': Ipv4, dns': CString)
    requires Encodable(ip, dns)
    ensures Current(Generated(f, ip, dns, BothWritten(true, left)).0, ip', dns') <==>
            (ip' == 0 || ip' == ip) && (dns' == [] || dns' == dns)
  {
    SanRoundTrip(ip, dns, ip', dns');
  }

  /** What a short write left in the certificate file answers for the identity all the same. */
  ghost predicate LeftCurrent(fate: Fate, ip: Ipv4, dns: CString) {
    fate.BothWritten? && fate.left.Readable? && Matches(fate.left.names, ip, dns)
  }

  /**
   When a success lasts: once ensured, the same identity is never generated again, whatever a generation
   would do, if and only if nothing was generated or the certificate was written whole (or what a
   short write left happens to answer for the identity).
   */
  lemma EnsuredStays(f: Files, ip: Ipv4, dns: CString, fate: Fate)
    requires Ensured(f, ip, dns, fate).1
    ensures (forall fate' :: Ensured(Ensured(f, ip, dns, fate).0, ip, dns, fate') == Ensured(f, ip, dns, fate)) <==>
            Current(f, ip, dns) || fate.whole || LeftCurrent(fate, ip, dns)
  {
    var f' := Ensured(f, ip, dns, fate).0;
    if !Current(f, ip, dns) && fate.whole {
      GeneratedIsCurrent(f, ip, dns, fate.left, ip, dns);
    }
    if !(Current(f, ip, dns) || fate.whole || LeftCurrent(fate, ip, dns)) {
      assert Ensured(f', ip, dns, NothingWritten) == (f', false);
    }
  }

  /**
   What a success means: there is a key, and a certificate that answers for each part of the identity, unless it was
   only just written and not whole.
   */
  lemma EnsuredAnswers(f: Files, ip: Ipv4, dns: CString, fate: Fate)
    requires Ensured(f, ip, dns, fate).1
    ensures var f' := Ensured(f, ip, dns, fate).0;
            && (ip != 0 || dns != []) && f'.key && f'.cert.Some?
            && ((fate.BothWritten? ==> fate.whole) ==>
                  && f'.cert.value.Readable?
                  && (ip != 0 ==> exists i :: 0 <= i < |f'.cert.value.names| && IsIp(f'.cert.value.names[i], ip))
                  && (dns != [] ==> exists i :: 0 <= i < |f'.cert.value.names| && IsDns(f'.cert.value.names[i], dns)))
  {
    hide IsIp, IsDns, Extension, Decode;
    if !Current(f, ip, dns) && fate.whole {
      GeneratedIsCurrent(f, ip, dns, fate.left, ip, dns);
    }
  }

  /** A short write that counts as done: the next call finds no certificate and has to generate again. */
  lemma ShortWriteForgotten(ip: Ipv4, dns: CString)
    requires Encodable(ip, dns)
    ensures var (f, ok) := Ensured(Files(None, false), ip, dns, BothWritten(false, Unreadable));
            ok && Ensured(f, ip, dns, NothingWritten) == (f, false)
  {
  }

  /** An identity too long for the short form can only be met by a certificate that is there already. */
  lemma TooLong(f: Files, ip: Ipv4, dns: CString, fate: Fate)
    requires InnerLen(ip, dns) > 127
    ensures Ensured(f, ip, dns, fate) == (f, Current(f, ip, dns))
  {
  }

  /** The provisioner, over the two files. */
  class Provisioner {
    var cert: Option<Stored>
    var key: bool

    ghost function View(): Files
      reads this
    {
      Files(cert, key)
    }

    method GenerateCert(ip: Ipv4, dns: CString, fate: Fate) returns (ok: bool)
      modifies this
      ensures (View(), ok) == Generated(old(View()), ip, dns, fate)
    {
      var sanBuf := new byte[SAN_BUF_SIZE];
      var sanLen := EncodeSanExtension(sanBuf, ip, dns);
      if sanLen == 0 {
        return false;
      }
      match fate
      case NothingWritten => return false;
      case CertHalfWritten(left) =>
        cert := left;
        return false;
      case KeyHalfWritten(left) =>
        cert := Some(Reloaded(sanBuf[..sanLen]));
        key := left;
        return false;
      case BothWritten(whole, left) =>
        cert := Some(if whole then Reloaded(sanBuf[..sanLen]) else left);
        key := true;
        return true;
    }

    method EnsureServerCert(ip: Ipv4, dns: CString, fate: Fate) returns (ok: bool)
      modifies this
      ensures (View(), ok) == Ensured(old(View()), ip, dns, fate)
    {
      if ip == 0 && dns == [] {
        return false;
      }
      if cert.Some? && key {
        if cert.value.Readable? {
          var matched := SanMatches(cert.value.names, ip, dns);
          if matched {
            return true;
          }
        }
      }
      ok := GenerateCert(ip, dns, fate);
    }
  }
}
