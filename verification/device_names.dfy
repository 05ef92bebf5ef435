/** Partition identifiers: how they are rendered, recognised and looked up. */
module DeviceNames {
  import opened Wrappers

  // ---------------------------------------------------------------- rendering

  function HexDigit(n: nat): (c: char)
    requires n < 16
    ensures IsHex(c) && ToUpper(c) == c && HexValue(c) == n && c != '-'
  {
    if n < 10 then '0' + n as char else 'A' + (n - 10) as char
  }

  predicate Upper(s: string) { forall i :: 0 <= i < |s| ==> ToUpper(s[i]) == s[i] }

  predicate AllHex(s: string) { forall i :: 0 <= i < |s| ==> IsHex(s[i]) }

  predicate Octets(bs: seq<nat>) { forall i :: 0 <= i < |bs| ==> bs[i] < 256 }

  function Octet(s: string, i: nat): nat
    requires i + 1 < |s|
  {
    16 * HexValue(s[i]) + HexValue(s[i + 1])
  }

  /** Two upper-case digits per byte. */
  function Hex(bs: seq<nat>): (s: string)
    requires Octets(bs)
    ensures |s| == 2 * |bs| && Upper(s) && AllHex(s)
    ensures forall k :: 0 <= k < |bs| ==> Octet(s, 2 * k) == bs[k]
  {
    if bs == [] then ""
    else
      var n := |bs| - 1;
      Hex(bs[..n]) + [HexDigit(bs[n] / 16), HexDigit(bs[n] % 16)]
  }

  type Guid = g: seq<nat> | |g| == 16 && Octets(g) witness [0, 0, 0, 0, 0, 0, 0, 0, 0, 0, 0, 0, 0, 0, 0, 0]

  /** The order of the printed bytes: the first three groups are stored little-endian. */
  function Order(g: Guid): (bs: seq<nat>)
    ensures |bs| == 16 && Octets(bs)
  {
    [g[3], g[2], g[1], g[0], g[5], g[4], g[7], g[6], g[8], g[9], g[10], g[11], g[12], g[13], g[14], g[15]]
  }

  function Dashed(d: string): (s: string)
    requires |d| == 32
    ensures |s| == 36
  {
    d[..8] + "-" + d[8..12] + "-" + d[12..16] + "-" + d[16..20] + "-" + d[20..]
  }

  /** `render_guid` */
  function RenderGuid(g: Guid): (s: string)
    ensures |s| == 36
  {
    Dashed(Hex(Order(g)))
  }

  /** The bytes of a 32-bit number, the most significant one first. */
  function FourBytes(x: nat): (bs: seq<nat>)
    requires x < 0x1_0000_0000
    ensures |bs| == 4 && Octets(bs)
  {
    [x / 0x100_0000, x / 0x1_0000 % 256, x / 0x100 % 256, x % 256]
  }

  /** The identifier of partition `n` in a boot record: the disk id and the number, as "%08X-%02X". */
  function RenderMbr(diskId: nat, n: nat): (s: string)
    requires diskId < 0x1_0000_0000 && n < 256
    ensures |s| == 11
  {
    Hex(FourBytes(diskId)) + "-" + Hex([n])
  }

  // ---------------------------------------------------------------- recognising

  predicate IsHex(c: char) { '0' <= c <= '9' || 'A' <= c <= 'F' || 'a' <= c <= 'f' }

  function ToUpper(c: char): char {
    if 'a' <= c <= 'z' then 'A' + (c - 'a') else c
  }

  /** The value of an upper-case digit. */
  function HexValue(c: char): nat {
    if '0' <= c <= '9' then (c - '0') as nat
    else if 'A' <= c <= 'F' then (c - 'A') as nat + 10
    else 0
  }

  /** What a C string shows at position `i`: a zero ends it. */
  function At(s: string, i: nat): char { if i < |s| then s[i] else '\0' }

  predicate Dash(dashes: set<nat>, i: nat) { i in dashes }

  /** Hexadecimal digits with dashes at fixed positions, of a fixed length. */
  predicate HasForm(s: string, dashes: set<nat>, len: nat) {
    && (forall i :: 0 <= i < len ==> if Dash(dashes, i) then At(s, i) == '-' else IsHex(At(s, i)))
    && At(s, len) == '\0'
  }

  const GUID_DASHES: set<nat> := {8, 13, 18, 23}
  const MBR_DASHES: set<nat> := {8}

  predicate IsUuid(s: string) { HasForm(s, GUID_DASHES, 36) || HasForm(s, MBR_DASHES, 11) }

  /** `is_guid` and `is_mbr_uuid`: the check stops at the first wrong character. */
  method CheckForm(s: string, dashes: set<nat>, len: nat) returns (ok: bool)
    ensures ok <==> HasForm(s, dashes, len)
  {
    var i := 0;
    while i < len
      invariant 0 <= i <= len
      invariant forall k :: 0 <= k < i ==> if Dash(dashes, k) then At(s, k) == '-' else IsHex(At(s, k))
    {
      var good := if i in dashes then At(s, i) == '-' else IsHex(At(s, i));
      if !good {
        assert !(if Dash(dashes, i) then At(s, i) == '-' else IsHex(At(s, i)));
        return false;
      }
      i := i + 1;
    }
    return At(s, len) == '\0';
  }

  // ---------------------------------------------------------------- parsing

  function ToUpperAll(s: string): (r: string)
    ensures |r| == |s| && forall i :: 0 <= i < |s| ==> r[i] == ToUpper(s[i])
  {
    seq(|s|, i requires 0 <= i < |s| => ToUpper(s[i]))
  }

  const PARTLABEL := "partlabel:"
  const PARTUUID := "partuuid:"

  /** `parse_device_name`; none is -L4_EINVAL. */
  function ParseDeviceName(param: string): Option<string> {
    if |param| > |PARTLABEL| && PARTLABEL <= param then Some(param[|PARTLABEL|..])
    else if |param| > |PARTUUID| && PARTUUID <= param then
      var uuid := param[|PARTUUID|..];
      if IsUuid(uuid) then Some(ToUpperAll(uuid)) else None
    else Some(if IsUuid(param) then ToUpperAll(param) else param)
  }

  /** `v` is `s` with some of its upper-case letters in lower case, which is 32 places further. */
  predicate SameLetters(v: string, s: string) {
    |v| == |s| && forall i :: 0 <= i < |s| ==>
      v[i] == s[i] || ('A' <= s[i] <= 'Z' && v[i] as int == s[i] as int + 32)
  }

  /** The names that are not UUIDs: a label stands behind its prefix, which must not be all there is; what is behind
      the prefix for UUIDs must be one; anything else is taken as it is. */
  lemma ParsePlain(name: string)
    ensures name != "" ==> ParseDeviceName("partlabel:" + name) == Some(name)
    ensures name != "" && !IsUuid(name) ==> ParseDeviceName("partuuid:" + name) == None
    ensures ParseDeviceName("partlabel:") == Some("partlabel:") && ParseDeviceName("partuuid:") == Some("partuuid:")
    ensures !("partlabel:" <= name) && !("partuuid:" <= name) && !IsUuid(name) ==> ParseDeviceName(name) == Some(name)
  {
    var named, uuid := PARTLABEL + name, PARTUUID + name;
    assert named[|PARTLABEL|..] == name && uuid[|PARTUUID|..] == name;
    assert uuid[4] == 'u' && PARTLABEL[4] == 'l';
    NotHexPrefix(PARTLABEL);
    NotHexPrefix(PARTUUID);
  }

  /** No UUID starts with a letter behind F. */
  lemma NotHexPrefix(s: string)
    requires s != "" && !IsHex(s[0])
    ensures !IsUuid(s)
  {
    assert !Dash(GUID_DASHES, 0) && !Dash(MBR_DASHES, 0) && At(s, 0) == s[0];
  }

  lemma FormIgnoresCase(v: string, s: string, dashes: set<nat>, len: nat)
    requires SameLetters(v, s) && HasForm(s, dashes, len) && |s| == len
    ensures HasForm(v, dashes, len)
  {
    forall i | 0 <= i < len ensures if Dash(dashes, i) then At(v, i) == '-' else IsHex(At(v, i)) {
      assert v[i] == s[i] || ('A' <= s[i] <= 'Z' && v[i] as int == s[i] as int + 32);
      assert if Dash(dashes, i) then At(s, i) == '-' else IsHex(At(s, i));
    }
  }

  lemma ParseUuid(v: string, s: string)
    requires SameLetters(v, s) && Upper(s)
    requires (|s| == 36 && HasForm(s, GUID_DASHES, 36)) || (|s| == 11 && HasForm(s, MBR_DASHES, 11))
    ensures ParseDeviceName(v) == Some(s) && ParseDeviceName(PARTUUID + v) == Some(s)
  {
    if |s| == 36 {
      FormIgnoresCase(v, s, GUID_DASHES, 36);
      assert !Dash(GUID_DASHES, 0);
    } else {
      FormIgnoresCase(v, s, MBR_DASHES, 11);
      assert !Dash(MBR_DASHES, 0);
    }
    assert IsHex(At(v, 0));
    assert ToUpperAll(v) == s;
    var param := PARTUUID + v;
    assert param[|PARTUUID|..] == v;
    assert param[4] == 'u' && PARTLABEL[4] == 'l';
  }

  /** Groups of digits joined by dashes. */
  lemma JoinForm(a: string, b: string, dashes: set<nat>)
    requires Upper(a) && Upper(b) && AllHex(b)
    requires forall i :: 0 <= i < |a| ==> if Dash(dashes, i) then a[i] == '-' else IsHex(a[i])
    requires Dash(dashes, |a|) && forall i :: |a| < i <= |a| + |b| ==> !Dash(dashes, i)
    ensures
      var s := a + "-" + b;
      Upper(s) && forall i :: 0 <= i < |s| ==> if Dash(dashes, i) then s[i] == '-' else IsHex(s[i])
  {
    var s := a + "-" + b;
    forall i | 0 <= i < |s| ensures ToUpper(s[i]) == s[i] && if Dash(dashes, i) then s[i] == '-' else IsHex(s[i]) {
      if i > |a| { assert s[i] == b[i - |a| - 1]; }
    }
  }

  lemma DashedForm(d: string)
    requires |d| == 32 && Upper(d) && AllHex(d)
    ensures var s := Dashed(d); Upper(s) && HasForm(s, GUID_DASHES, 36)
  {
    JoinForm(d[..8], d[8..12], GUID_DASHES);
    var s2 := d[..8] + "-" + d[8..12];
    JoinForm(s2, d[12..16], GUID_DASHES);
    var s3 := s2 + "-" + d[12..16];
    JoinForm(s3, d[16..20], GUID_DASHES);
    var s4 := s3 + "-" + d[16..20];
    JoinForm(s4, d[20..], GUID_DASHES);
  }

  lemma GuidForm(g: Guid)
    ensures var s := RenderGuid(g); Upper(s) && HasForm(s, GUID_DASHES, 36)
  {
    DashedForm(Hex(Order(g)));
  }

  lemma MbrForm(diskId: nat, n: nat)
    requires diskId < 0x1_0000_0000 && n < 256
    ensures var s := RenderMbr(diskId, n); Upper(s) && HasForm(s, MBR_DASHES, 11)
  {
    JoinForm(Hex(FourBytes(diskId)), Hex([n]), MBR_DASHES);
  }

  /** A 32-bit number is made up of its bytes. */
  lemma Composed(x: nat)
    ensures x == 0x100_0000 * (x / 0x100_0000) + 0x1_0000 * (x / 0x1_0000 % 256) + 0x100 * (x / 0x100 % 256) + x % 256
  {
    assert x / 0x1_0000 == (x / 0x100) / 0x100 && x / 0x100_0000 == (x / 0x1_0000) / 0x100;
  }

  lemma FourBytesInjective(x: nat, y: nat)
    requires x < 0x1_0000_0000 && y < 0x1_0000_0000 && FourBytes(x) == FourBytes(y)
    ensures x == y
  {
    var a, b := FourBytes(x), FourBytes(y);
    assert a[0] == b[0] && a[1] == b[1] && a[2] == b[2] && a[3] == b[3];
    Composed(x);
    Composed(y);
  }

  lemma MbrParts(diskId: nat, n: nat, s: string)
    requires diskId < 0x1_0000_0000 && n < 256 && s == RenderMbr(diskId, n)
    ensures s[..8] == Hex(FourBytes(diskId)) && s[9..] == Hex([n])
  {
  }

  /** Two partitions have the same identifier if and only if disk id and number are the same. */
  lemma MbrDistinct(diskId: nat, n: nat, otherId: nat, m: nat)
    requires diskId < 0x1_0000_0000 && otherId < 0x1_0000_0000 && n < 256 && m < 256
    ensures RenderMbr(diskId, n) == RenderMbr(otherId, m) <==> diskId == otherId && n == m
  {
    var s, t := RenderMbr(diskId, n), RenderMbr(otherId, m);
    if s == t {
      MbrParts(diskId, n, s);
      MbrParts(otherId, m, t);
      HexInjective(FourBytes(diskId), FourBytes(otherId));
      FourBytesInjective(diskId, otherId);
      HexInjective([n], [m]);
      assert [n][0] == [m][0];
    }
  }

  function Undashed(s: string): string
    requires |s| == 36
  {
    s[..8] + s[9..13] + s[14..18] + s[19..23] + s[24..]
  }

  lemma UndashDashed(d: string)
    requires |d| == 32
    ensures Undashed(Dashed(d)) == d
  {
    var s := Dashed(d);
    assert s[..8] == d[..8] && s[9..13] == d[8..12] && s[14..18] == d[12..16]
           && s[19..23] == d[16..20] && s[24..] == d[20..];
  }

  lemma HexInjective(a: seq<nat>, b: seq<nat>)
    requires Octets(a) && Octets(b) && Hex(a) == Hex(b)
    ensures a == b
  {
    forall k | 0 <= k < |a| ensures a[k] == b[k] {
      assert Octet(Hex(a), 2 * k) == a[k] && Octet(Hex(b), 2 * k) == b[k];
    }
  }

  /** Different identifiers render differently. */
  lemma GuidDistinct(g: Guid, h: Guid)
    ensures RenderGuid(g) == RenderGuid(h) <==> g == h
  {
    if RenderGuid(g) == RenderGuid(h) {
      UndashDashed(Hex(Order(g)));
      UndashDashed(Hex(Order(h)));
      HexInjective(Order(g), Order(h));
      SameOrder(g, h);
    }
  }

  lemma SameOrder(g: Guid, h: Guid)
    requires Order(g) == Order(h)
    ensures g == h
  {
    var a, b := Order(g), Order(h);
    assert a[0] == b[0] && a[1] == b[1] && a[2] == b[2] && a[3] == b[3]
           && a[4] == b[4] && a[5] == b[5] && a[6] == b[6] && a[7] == b[7];
    forall k | 8 <= k < 16 ensures g[k] == h[k] { assert a[k] == b[k]; }
  }

  /** Any spelling of a rendered identifier, with or without its prefix, finds the stored form. */
  lemma GuidFoundInAnyCase(g: Guid, v: string)
    requires SameLetters(v, RenderGuid(g))
    ensures ParseDeviceName(v) == Some(RenderGuid(g)) && ParseDeviceName(PARTUUID + v) == Some(RenderGuid(g))
  {
    GuidForm(g);
    ParseUuid(v, RenderGuid(g));
  }

  lemma MbrFoundInAnyCase(diskId: nat, n: nat, v: string)
    requires diskId < 0x1_0000_0000 && n < 256 && SameLetters(v, RenderMbr(diskId, n))
    ensures ParseDeviceName(v) == Some(RenderMbr(diskId, n))
    ensures ParseDeviceName(PARTUUID + v) == Some(RenderMbr(diskId, n))
  {
    MbrForm(diskId, n);
    ParseUuid(v, RenderMbr(diskId, n));
  }
}
