// GameSettings and its statstring code (protocol/w3gs/packets.go; section 4.3 of the W3G replay
// format description): seven bytes become eight odd ones, so that the text holds no null byte.

module StatStrings {
  import opened Wire

  // ---- Seven bytes in eight -----------------------------------------------

  function Pow2(n: nat): nat {
    if n == 0 then 1 else 2 * Pow2(n - 1)
  }

  /** m & (1 << j) != 0 */
  predicate BitSet(m: nat, j: nat) {
    if j == 0 then m % 2 == 1 else BitSet(m / 2, j - 1)
  }

  /** The parities of up to seven bytes, as a number. */
  function Parities(g: Bytes): nat {
    if g == [] then 0 else g[0] % 2 + 2 * Parities(g[1..])
  }

  lemma {:induction false} ParitiesBound(g: Bytes)
    ensures Parities(g) < Pow2(|g|)
    decreases |g|
  {
    if g != [] {
      ParitiesBound(g[1..]);
    }
  }

  lemma {:induction false} ParitiesNext(g: Bytes, x: Byte)
    ensures Parities(g + [x]) == Parities(g) + Pow2(|g|) * (x % 2)
    decreases |g|
  {
    if g == [] {
      assert (g + [x])[1..] == [];
    } else {
      assert (g + [x])[1..] == g[1..] + [x];
      ParitiesNext(g[1..], x);
      var p, q := Pow2(|g| - 1), x % 2;
      assert 2 * (p * q) == (2 * p) * q;
    }
  }

  lemma HalfIs(n: nat, q: nat, r: nat)
    requires n == 2 * q + r && r < 2
    ensures n / 2 == q && n % 2 == r
  {
  }

  lemma {:induction false} ParitiesBit(g: Bytes, j: nat)
    requires j < |g|
    ensures BitSet(Parities(g), j) <==> g[j] % 2 == 1
    decreases |g|
  {
    var p := Parities(g[1..]);
    HalfIs(Parities(g), p, g[0] % 2);
    if j > 0 {
      ParitiesBit(g[1..], j - 1);
      assert g[1..][j - 1] == g[j];
    }
  }

  function Odd(x: Byte): Byte {
    if x % 2 == 0 then x + 1 else x
  }

  function Odds(g: Bytes): (r: Bytes)
    ensures |r| == |g|
    ensures forall i | 0 <= i < |g| :: r[i] == Odd(g[i])
  {
    seq(|g|, i requires 0 <= i < |g| => Odd(g[i]))
  }

  function Mask(g: Bytes): Byte
    requires |g| <= 7
  {
    ParitiesBound(g);
    assert Pow2(|g|) <= Pow2(7) by { Pow2Grows(|g|, 7); }
    assert Pow2(7) == 128;
    1 + 2 * Parities(g)
  }

  lemma {:induction false} Pow2Grows(m: nat, n: nat)
    requires m <= n
    ensures Pow2(m) <= Pow2(n)
    decreases n
  {
    if m < n {
      Pow2Grows(m, n - 1);
    }
  }

  function Group(g: Bytes): Bytes
    requires |g| <= 7
  {
    [Mask(g)] + Odds(g)
  }

  function Chunk(b: Bytes, n: nat): nat {
    if |b| < n then |b| else n
  }

  function Shift(b: Bytes): Bytes
    decreases |b|
  {
    if b == [] then [] else
      var k := Chunk(b, 7);
      Group(b[..k]) + Shift(b[k..])
  }

  /** uint8(x) - 1, which wraps. */
  function Lower(x: Byte): Byte {
    (x as int + 0xFF) % 0x100
  }

  /** One group: the control byte says which of the others to lower by one. */
  function Ungroup(g: Bytes): (r: Bytes)
    requires 1 <= |g| <= 8
    ensures |r| == |g| - 1
  {
    seq(|g| - 1, j requires 0 <= j < |g| - 1 => if BitSet(g[0], j + 1) then g[j + 1] else Lower(g[j + 1]))
  }

  function Unshift(s: Bytes): Bytes
    decreases |s|
  {
    if s == [] then [] else
      var k := Chunk(s, 8);
      Ungroup(s[..k]) + Unshift(s[k..])
  }

  lemma UngroupOf(g: Bytes)
    requires |g| <= 7
    ensures Ungroup(Group(g)) == g
  {
    var m := Mask(g);
    forall j | 0 <= j < |g|
      ensures Ungroup(Group(g))[j] == g[j]
    {
      assert m as int / 2 == Parities(g);
      assert BitSet(m, j + 1) == BitSet(Parities(g), j);
      ParitiesBit(g, j);
    }
  }

  /** The code loses nothing. */
  lemma {:induction false} UnshiftOf(b: Bytes)
    ensures Unshift(Shift(b)) == b
    decreases |b|
  {
    if b != [] {
      var k := Chunk(b, 7);
      var g, more := Group(b[..k]), Shift(b[k..]);
      UnshiftOf(b[k..]);
      UngroupOf(b[..k]);
      if |b| < 7 {
        assert b[k..] == [] && more == [];
      }
      assert (g + more)[..|g|] == g && (g + more)[|g|..] == more;
      assert Chunk(g + more, 8) == |g|;
    }
  }

  /** Every byte of it is odd, hence not null. */
  lemma {:induction false} ShiftIsOdd(b: Bytes)
    ensures forall i | 0 <= i < |Shift(b)| :: Shift(b)[i] % 2 == 1
    ensures NulFree(Shift(b))
    decreases |b|
  {
    if b != [] {
      ShiftIsOdd(b[Chunk(b, 7)..]);
    }
  }

  /** One control byte for every seven bytes begun. */
  lemma {:induction false} ShiftLength(b: Bytes)
    ensures |Shift(b)| == |b| + (|b| + 6) / 7
    decreases |b|
  {
    if b != [] {
      ShiftLength(b[Chunk(b, 7)..]);
    }
  }

  // ---- GameSettings -------------------------------------------------------

  datatype GameSettings = GameSettings(
    flags: UInt32,
    mapWidth: UInt16,
    mapHeight: UInt16,
    mapXoro: UInt32,
    mapPath: Bytes,
    hostName: Bytes,
    mapSha1: Bytes)

  predicate Valid(gs: GameSettings) {
    NulFree(gs.mapPath) && NulFree(gs.hostName) && |gs.mapSha1| == 20
  }

  function Plain(gs: GameSettings): Bytes {
    LE32(gs.flags) + ([0] + (LE16(gs.mapWidth) + (LE16(gs.mapHeight) + (LE32(gs.mapXoro) +
    (CString(gs.mapPath) + (CString(gs.hostName) + ([0] + gs.mapSha1)))))))
  }

  function Encode(gs: GameSettings): Bytes {
    CString(Shift(Plain(gs)))
  }

  /** GameSettings.Size */
  function Size(gs: GameSettings): nat {
    var size := 36 + |gs.mapPath| + |gs.hostName|;
    size + (size + 6) / 7 + 1
  }

  const NO_SHA1: Bytes := [0, 0, 0, 0, 0, 0, 0, 0, 0, 0, 0, 0, 0, 0, 0, 0, 0, 0, 0, 0]

  /** The fields after the two strings. */
  function DecodeTail(gs: GameSettings, b: Bytes): Outcome<GameSettings> {
    if |b| != 1 && |b| != 21 then Failed(ErrInvalidPacketSize)
    else if b[0] != 0 then Failed(ErrUnexpectedConst)
    else Done(gs.(mapSha1 := if |b| == 21 then b[1..21] else NO_SHA1), [])
  }

  function DecodeStrings(gs: GameSettings, b: Bytes): Outcome<GameSettings> {
    match TakeCString(b)
    case Failed(err) => Failed(err)
    case Panics => Panics
    case Done(path, more) =>
      if |more| < 2 then Failed(ErrInvalidPacketSize)
      else
        match TakeCString(more)
        case Failed(err) => Failed(err)
        case Panics => Panics
        case Done(host, tail) => DecodeTail(gs.(mapPath := path, hostName := host), tail)
  }

  function DecodePlain(b: Bytes): Outcome<GameSettings>
    requires |b| >= 13
  {
    if b[4] > 2 then Failed(ErrUnexpectedConst)
    else
      var gs := GameSettings(Get32(b), Get16(b[5..]), Get16(b[7..]), Get32(b[9..]), [], [], NO_SHA1);
      DecodeStrings(gs, b[13..])
  }

  /** DeserializeContent, for any bytes at all. */
  function Decode(b: Bytes): (o: Outcome<GameSettings>)
    ensures !o.Panics?
  {
    match TakeCString(b)
    case Failed(err) => Failed(err)
    case Panics => Panics
    case Done(s, rest) =>
      if |s| < 16 then Failed(ErrInvalidPacketSize)
      else
        UnshiftLength(s);
        match DecodePlain(Unshift(s))
        case Done(gs, _) => Done(gs, rest)
        case Failed(err) => Failed(err)
        case Panics => Panics
  }

  lemma {:induction false} UnshiftLength(s: Bytes)
    ensures |Unshift(s)| == |s| - (|s| + 7) / 8
    decreases |s|
  {
    if s != [] {
      UnshiftLength(s[Chunk(s, 8)..]);
    }
  }

  lemma DecodePlainOf(gs: GameSettings)
    requires Valid(gs)
    ensures |Plain(gs)| >= 13 && DecodePlain(Plain(gs)) == Done(gs, [])
  {
    var b := Plain(gs);
    var strings := CString(gs.mapPath) + (CString(gs.hostName) + ([0] + gs.mapSha1));
    var xoro := LE32(gs.mapXoro) + strings;
    var height := LE16(gs.mapHeight) + xoro;
    var width := LE16(gs.mapWidth) + height;
    Get32OfLE32(gs.flags, [0] + width);
    assert b[5..] == width;
    Get16OfLE16(gs.mapWidth, height);
    assert b[7..] == width[2..] == height;
    Get16OfLE16(gs.mapHeight, xoro);
    assert b[9..] == height[2..] == xoro;
    Get32OfLE32(gs.mapXoro, strings);
    assert b[13..] == xoro[4..] == strings;
    DecodeStringsOf(GameSettings(gs.flags, gs.mapWidth, gs.mapHeight, gs.mapXoro, [], [], NO_SHA1), gs);
  }

  lemma DecodeStringsOf(part: GameSettings, gs: GameSettings)
    requires Valid(gs) && part == gs.(mapPath := [], hostName := [], mapSha1 := NO_SHA1)
    ensures DecodeStrings(part, CString(gs.mapPath) + (CString(gs.hostName) + ([0] + gs.mapSha1))) == Done(gs, [])
  {
    var tail := [0] + gs.mapSha1;
    TakeCStringOf(gs.mapPath, CString(gs.hostName) + tail);
    TakeCStringOf(gs.hostName, tail);
    assert tail[1..21] == gs.mapSha1;
  }

  /** Settings with strings free of null bytes are read back whole, whatever follows them. */
  lemma RoundTrip(gs: GameSettings, tail: Bytes)
    requires Valid(gs)
    ensures Decode(Encode(gs) + tail) == Done(gs, tail)
  {
    var s := Shift(Plain(gs));
    ShiftIsOdd(Plain(gs));
    TakeCStringOf(s, tail);
    ShiftLength(Plain(gs));
    PlainLength(gs);
    UnshiftOf(Plain(gs));
    DecodePlainOf(gs);
  }

  lemma PlainLength(gs: GameSettings)
    ensures |Plain(gs)| == 16 + |gs.mapPath| + |gs.hostName| + |gs.mapSha1|
  {
  }

  /** Size() is the length of what SerializeContent writes. */
  lemma SizeIsLength(gs: GameSettings)
    requires |gs.mapSha1| == 20
    ensures |Encode(gs)| == Size(gs)
  {
    PlainLength(gs);
    ShiftLength(Plain(gs));
  }

  // ---- Statstrings that nobody writes -------------------------------------

  lemma StringsLength(gs: GameSettings, b: Bytes)
    ensures var o := DecodeStrings(gs, b); o.Done? ==> |b| <= 23 + |o.value.mapPath| + |o.value.hostName|
  {
  }

  lemma PlainFits(b: Bytes)
    requires |b| >= 13
    ensures var o := DecodePlain(b); o.Done? ==> |b| <= 36 + |o.value.mapPath| + |o.value.hostName|
  {
    hide DecodeStrings;
    StringsLength(GameSettings(Get32(b), Get16(b[5..]), Get16(b[7..]), Get32(b[9..]), [], [], NO_SHA1), b[13..]);
  }

  /** A statstring that decodes is at most one byte longer than the one that Size() speaks of. */
  lemma DecodedFits(b: Bytes)
    ensures Decode(b).Done? ==>
      && TakeCString(b).Done? && Decode(b).rest == TakeCString(b).rest
      && |TakeCString(b).value| <= Size(Decode(b).value)
  {
    hide DecodePlain, TakeCString;
    if Decode(b).Done? {
      var s := TakeCString(b).value;
      UnshiftLength(s);
      PlainFits(Unshift(s));
      CodeLength(|s|, |Unshift(s)|, 36 + |Decode(b).value.mapPath| + |Decode(b).value.hostName|);
    }
  }

  lemma CodeLength(s: nat, plain: nat, most: nat)
    requires plain == s - (s + 7) / 8 && plain <= most
    ensures s <= most + (most + 6) / 7 + 1
  {
  }

  lemma ChunkOf(b: Bytes)
    ensures |b| >= 8 ==> Chunk(b, 8) == 8
  {
  }

  lemma {:induction false} UnshiftAppend(s: Bytes, t: Bytes)
    requires |s| % 8 == 0
    ensures Unshift(s + t) == Unshift(s) + Unshift(t)
    decreases |s|
  {
    if s == [] {
      assert s + t == t;
    } else {
      hide Ungroup, Chunk;
      ChunkOf(s);
      ChunkOf(s + t);
      var g := Ungroup(s[..8]);
      assert (s + t)[..8] == s[..8] && (s + t)[8..] == s[8..] + t;
      assert Unshift(s + t) == g + Unshift(s[8..] + t);
      assert Unshift(s) == g + Unshift(s[8..]);
      UnshiftAppend(s[8..], t);
      assert g + (Unshift(s[8..]) + Unshift(t)) == g + Unshift(s[8..]) + Unshift(t);
    }
  }

  /** A control byte with nothing behind it is read over. */
  lemma LoneControl(gs: GameSettings, tail: Bytes)
    requires Valid(gs) && (36 + |gs.mapPath| + |gs.hostName|) % 7 == 0
    ensures var s := Shift(Plain(gs)) + [1];
      |s| == Size(gs) && TakeCString(CString(s) + tail) == Done(s, tail) && Decode(CString(s) + tail) == Done(gs, tail)
  {
    hide DecodePlain, Plain, Shift, TakeCString, CString;
    var code := Shift(Plain(gs));
    var s := code + [1];
    ShiftIsOdd(Plain(gs));
    ShiftLength(Plain(gs));
    PlainLength(gs);
    TakeCStringOf(s, tail);
    UnshiftOf(Plain(gs));
    UnshiftAppend(code, [1]);
    assert Unshift([1]) == [];
    assert Unshift(code) + [] == Unshift(code);
    DecodePlainOf(gs);
  }

  // ---- SerializeContent and DeserializeContent ----------------------------

  /** The inner loop of SerializeContent; the control byte is written over a placeholder. */
  method WriteGroup(g: Bytes, buf: Buffer)
    requires |g| <= 7
    modifies buf
    ensures buf.bytes == old(buf.bytes) + Group(g)
  {
    hide Odds, Parities, Pow2;
    var p := |buf.bytes|;
    var m := 1;
    GroupStart(g);
    buf.WriteUInt8(0);
    for j := 0 to |g|
      invariant buf.bytes == old(buf.bytes) + [0] + Odds(g[..j])
      invariant m == 1 + 2 * Parities(g[..j])
    {
      GroupNext(g, j);
      if g[j] % 2 == 0 {
        buf.WriteUInt8(g[j] + 1);
      } else {
        buf.WriteUInt8(g[j]);
        m := m + Pow2(j + 1);
      }
    }
    assert g[..|g|] == g;
    assert m == Mask(g);
    buf.WriteUInt8At(p, m);
    assert buf.bytes == old(buf.bytes) + Group(g);
  }

  lemma GroupStart(g: Bytes)
    ensures Odds(g[..0]) == [] && Parities(g[..0]) == 0
  {
  }

  lemma GroupNext(g: Bytes, j: nat)
    requires j < |g|
    ensures Odds(g[..j + 1]) == Odds(g[..j]) + [Odd(g[j])]
    ensures 2 * Parities(g[..j + 1]) == 2 * Parities(g[..j]) + if g[j] % 2 == 0 then 0 else Pow2(j + 1)
  {
    assert g[..j + 1] == g[..j] + [g[j]];
    ParitiesNext(g[..j], g[j]);
  }

  lemma ShiftFrom(b: Bytes, i: nat, k: nat)
    requires i < |b| && k == if i + 7 < |b| then i + 7 else |b|
    ensures Shift(b[i..]) == Group(b[i..k]) + if k < |b| then Shift(b[k..]) else []
  {
    assert b[i..][..k - i] == b[i..k] && b[i..][k - i..] == b[k..];
  }

  lemma UnshiftFrom(s: Bytes, i: nat, k: nat)
    requires i < |s| && k == if i + 8 < |s| then i + 8 else |s|
    ensures Unshift(s[i..]) == Ungroup(s[i..k]) + if k < |s| then Unshift(s[k..]) else []
  {
    assert s[i..][..k - i] == s[i..k] && s[i..][k - i..] == s[k..];
  }

  method WritePlain(gs: GameSettings) returns (b: Bytes)
    ensures b == Plain(gs)
  {
    var stat := new Buffer([]);
    stat.WriteUInt32(gs.flags);
    stat.WriteUInt8(0);
    stat.WriteUInt16(gs.mapWidth);
    stat.WriteUInt16(gs.mapHeight);
    stat.WriteUInt32(gs.mapXoro);
    stat.WriteCString(gs.mapPath);
    stat.WriteCString(gs.hostName);
    stat.WriteUInt8(0);
    stat.WriteBlob(gs.mapSha1);
    b := stat.bytes;
  }

  method SerializeContent(gs: GameSettings, buf: Buffer)
    modifies buf
    ensures buf.bytes == old(buf.bytes) + Encode(gs)
  {
    var b := WritePlain(gs);
    WriteGroups(b, buf);
    buf.WriteUInt8(0);
  }

  /** The outer loop of SerializeContent. */
  method WriteGroups(b: Bytes, buf: Buffer)
    modifies buf
    ensures buf.bytes == old(buf.bytes) + Shift(b)
  {
    hide Group, Shift;
    var i := 0;
    ghost var todo := Shift(b);
    assert b[0..] == b;
    ShiftNothing();
    while i < |b|
      invariant 0 <= i
      invariant todo == if i < |b| then Shift(b[i..]) else []
      invariant buf.bytes + todo == old(buf.bytes) + Shift(b)
    {
      var k := if i + 7 < |b| then i + 7 else |b|;
      ShiftFrom(b, i, k);
      WriteGroup(b[i..k], buf);
      todo := if k < |b| then Shift(b[k..]) else [];
      i := i + 7;
    }
    assert buf.bytes + [] == buf.bytes;
  }

  lemma ShiftNothing()
    ensures Shift([]) == [] && Unshift([]) == []
  {
  }

  /** The inner decoding loop of DeserializeContent. */
  method WriteUngrouped(g: Bytes, b: Buffer)
    requires 1 <= |g| <= 8
    modifies b
    ensures b.bytes == old(b.bytes) + Ungroup(g)
  {
    var m := g[0];
    for j := 1 to |g|
      invariant b.bytes == old(b.bytes) + Ungroup(g)[..j - 1]
    {
      if BitSet(m, j) {
        b.WriteUInt8(g[j]);
      } else {
        b.WriteUInt8(Lower(g[j]));
      }
    }
    assert Ungroup(g)[..|g| - 1] == Ungroup(g);
  }

  /** The outer decoding loop. */
  method UnshiftLoop(s: Bytes) returns (plain: Bytes)
    ensures plain == Unshift(s)
  {
    hide Ungroup, Unshift;
    var b := new Buffer([]);
    var i := 0;
    ghost var todo := Unshift(s);
    assert s[0..] == s;
    assert b.bytes + todo == todo;
    ShiftNothing();
    while i < |s|
      invariant 0 <= i
      invariant todo == if i < |s| then Unshift(s[i..]) else []
      invariant b.bytes + todo == Unshift(s)
    {
      var k := if i + 8 < |s| then i + 8 else |s|;
      UnshiftFrom(s, i, k);
      WriteUngrouped(s[i..k], b);
      todo := if k < |s| then Unshift(s[k..]) else [];
      i := i + 8;
    }
    assert b.bytes + [] == b.bytes;
    plain := b.bytes;
  }

  /** The fields before the strings are kept; all others are replaced. */
  lemma StringsReplace(a: GameSettings, c: GameSettings, b: Bytes)
    requires a.(mapPath := [], hostName := [], mapSha1 := []) == c.(mapPath := [], hostName := [], mapSha1 := [])
    ensures DecodeStrings(a, b) == DecodeStrings(c, b)
  {
  }

  /** GameSettings.DeserializeContent, into settings that held something else before. */
  method DeserializeContent(buf: Buffer, was: GameSettings) returns (gs: GameSettings, err: Result)
    modifies buf
    ensures Decode(old(buf.bytes)) == Answer(err, gs, buf.bytes)
  {
    gs := was;
    var s, ok := buf.ReadCString();
    if !ok {
      return gs, Err(ErrNoCStringTerminatorFound);
    }
    if |s| < 16 {
      return gs, Err(ErrInvalidPacketSize);
    }
    var plain := UnshiftLoop(s);
    UnshiftLength(s);
    gs, err := ReadPlain(plain, was);
  }

  method ReadPlain(plain: Bytes, was: GameSettings) returns (gs: GameSettings, err: Result)
    requires |plain| >= 13
    ensures DecodePlain(plain) == Answer(err, gs, [])
  {
    hide DecodeStrings;
    gs := was;
    var b := new Buffer(plain);
    var size := |b.bytes|;
    var flags := b.ReadUInt32();
    gs := gs.(flags := flags);
    var kind := b.ReadUInt8();
    if kind > 2 {
      return gs, Err(ErrUnexpectedConst);
    }
    assert b.bytes == plain[5..];
    var width := b.ReadUInt16();
    assert b.bytes == plain[7..];
    var height := b.ReadUInt16();
    assert b.bytes == plain[9..];
    var xoro := b.ReadUInt32();
    assert b.bytes == plain[13..];
    gs := gs.(mapWidth := width, mapHeight := height, mapXoro := xoro);
    StringsReplace(gs, GameSettings(flags, width, height, xoro, [], [], NO_SHA1), plain[13..]);
    gs, err := ReadStrings(gs, b, size);
  }

  method ReadStrings(part: GameSettings, b: Buffer, total: nat) returns (gs: GameSettings, err: Result)
    requires total == 13 + |b.bytes|
    modifies b
    ensures DecodeStrings(part, old(b.bytes)) == Answer(err, gs, [])
  {
    gs := part;
    var path, ok := b.ReadCString();
    if !ok {
      return gs, Err(ErrNoCStringTerminatorFound);
    }
    if total < 16 + |path| {
      return gs, Err(ErrInvalidPacketSize);
    }
    var host;
    host, ok := b.ReadCString();
    if !ok {
      return gs, Err(ErrNoCStringTerminatorFound);
    }
    gs := gs.(mapPath := path, hostName := host);
    var size := total - (16 + |path| + |host|);
    if size != 0 && size != 20 {
      return gs, Err(ErrInvalidPacketSize);
    }
    ghost var tail := b.bytes;
    var zero := b.ReadUInt8();
    if zero != 0 {
      return gs, Err(ErrUnexpectedConst);
    }
    if size != 0 {
      var sha1 := b.ReadBlob(20);
      assert tail[1..][..20] == tail[1..21];
      gs := gs.(mapSha1 := sha1);
    } else {
      gs := gs.(mapSha1 := NO_SHA1);
    }
    return gs, OK;
  }
}
