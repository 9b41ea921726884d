/**
 The identifier-name filter (`internal/domain/sanitize.go`): its loose UTF-8 decoder, its
 encoder, and the fast path that skips both. A string is a sequence of bytes; a rune is
 an integer. The code's masks and shifts by fixed amounts are written as `%`, `/` and `*`.
 */
module Sanitize {
  type Byte = b: int | 0 <= b < 256

  /** A value four bytes can carry. */
  type Rune = r: int | 0 <= r < 0x20_0000

  predicate IsDangerousRune(r: int) {
    || r == 0x200B || r == 0x200C || r == 0x200D || r == 0xFEFF || r == 0x2060 || r == 0x180E
    || 0x202A <= r <= 0x202E
    || 0x2066 <= r <= 0x2069
  }

  /** The six payload bits of a continuation byte, `b & 0x3F`. */
  function Low6(b: int): (r: int)
    ensures 0 <= r < 0x40
  {
    b % 0x40
  }

  /** `decodeRune` at the start of a non-empty string: a rune and how many bytes it takes. */
  function DecodeRune(s: seq<Byte>): (d: (Rune, nat))
    requires s != []
    ensures 1 <= d.1 <= |s|
  {
    var b: int := s[0];
    if b < 0x80 then (b, 1)
    else if b < 0xC2 then (b, 1)
    else if b < 0xE0 then
      if 1 >= |s| then (b, 1) else (b % 0x20 * 0x40 + Low6(s[1]), 2)
    else if b < 0xF0 then
      if 2 >= |s| then (b, 1) else (b % 0x10 * 0x1000 + Low6(s[1]) * 0x40 + Low6(s[2]), 3)
    else
      if 3 >= |s| then (b, 1)
      else (b % 0x08 * 0x4_0000 + Low6(s[1]) * 0x1000 + Low6(s[2]) * 0x40 + Low6(s[3]), 4)
  }

  /** `appendRune`: the bytes it appends. */
  function EncodeRune(r: Rune): (e: seq<Byte>)
    ensures 1 <= |e| <= 4
  {
    if r < 0x80 then [r]
    else if r < 0x800 then [0xC0 + r / 0x40, 0x80 + r % 0x40]
    else if r < 0x1_0000 then [0xE0 + r / 0x1000, 0x80 + r / 0x40 % 0x40, 0x80 + r % 0x40]
    else [0xF0 + r / 0x4_0000, 0x80 + r / 0x1000 % 0x40, 0x80 + r / 0x40 % 0x40, 0x80 + r % 0x40]
  }

  function DecodeAll(s: seq<Byte>): seq<Rune>
    decreases |s|
  {
    if s == [] then [] else [DecodeRune(s).0] + DecodeAll(s[DecodeRune(s).1..])
  }

  function EncodeAll(rs: seq<Rune>): seq<Byte> {
    if rs == [] then [] else EncodeRune(rs[0]) + EncodeAll(rs[1..])
  }

  /** The runes that are not dangerous, in order. */
  function Safe(rs: seq<Rune>): seq<Rune> {
    if rs == [] then [] else (if IsDangerousRune(rs[0]) then [] else [rs[0]]) + Safe(rs[1..])
  }

  predicate AllSafe(rs: seq<Rune>) {
    forall i :: 0 <= i < |rs| ==> !IsDangerousRune(rs[i])
  }

  /** A byte that may start a dangerous rune in well-formed text. */
  predicate IsAlarm(b: Byte) {
    b == 0xE1 || b == 0xE2 || b == 0xEF
  }

  predicate HasAlarm(s: seq<Byte>) {
    exists i :: 0 <= i < |s| && IsAlarm(s[i])
  }

  function SlowPath(s: seq<Byte>): seq<Byte> {
    EncodeAll(Safe(DecodeAll(s)))
  }

  function Sanitized(s: seq<Byte>): seq<Byte> {
    if HasAlarm(s) then SlowPath(s) else s
  }

  // ----- the code

  method ContainsDangerous(s: seq<Byte>) returns (found: bool)
    ensures found <==> HasAlarm(s)
  {
    for i := 0 to |s|
      invariant forall k :: 0 <= k < i ==> !IsAlarm(s[k])
    {
      if s[i] == 0xE1 || s[i] == 0xE2 || s[i] == 0xEF {
        assert IsAlarm(s[i]);
        return true;
      }
    }
    return false;
  }

  method SanitizeName(s: seq<Byte>) returns (r: seq<Byte>)
    ensures r == Sanitized(s)
  {
    hide DecodeRune, EncodeRune, IsDangerousRune, SlowPath;
    if s == [] {
      return s;
    }
    var alarm := ContainsDangerous(s);
    if !alarm {
      return s;
    }
    var b: seq<Byte> := [];
    var i := 0;
    assert s[0..] == s;
    while i < |s|
      invariant i <= |s|
      invariant b + SlowPath(s[i..]) == SlowPath(s)
    {
      var (rune, size) := DecodeRune(s[i..]);
      SlowStep(s[i..]);
      assert s[i..][size..] == s[i + size..];
      if !IsDangerousRune(rune) {
        b := b + EncodeRune(rune);
      }
      i := i + size;
    }
    assert s[|s|..] == [];
    NothingLeft();
    return b;
  }

  lemma NothingLeft()
    ensures SlowPath([]) == []
  {
  }

  /** One turn of the loop. */
  lemma SlowStep(s: seq<Byte>)
    requires s != []
    ensures SlowPath(s) ==
      (if IsDangerousRune(DecodeRune(s).0) then [] else EncodeRune(DecodeRune(s).0)) + SlowPath(s[DecodeRune(s).1..])
  {
    hide DecodeRune, EncodeRune, IsDangerousRune;
    var r, rs := DecodeRune(s).0, DecodeAll(s[DecodeRune(s).1..]);
    assert DecodeAll(s) == [r] + rs;
    assert ([r] + rs)[1..] == rs;
    if !IsDangerousRune(r) {
      assert Safe([r] + rs) == [r] + Safe(rs);
      assert ([r] + Safe(rs))[1..] == Safe(rs);
    } else {
      assert Safe([r] + rs) == Safe(rs);
    }
  }

  // ----- decoding undoes encoding

  lemma TwoBytes(r: int)
    requires 0x80 <= r < 0x800
    ensures 0xC2 <= 0xC0 + r / 0x40 < 0xE0
    ensures (0xC0 + r / 0x40) % 0x20 * 0x40 + Low6(0x80 + r % 0x40) == r
  {
  }

  lemma ThreeBytes(r: int)
    requires 0x800 <= r < 0x1_0000
    ensures 0xE0 <= 0xE0 + r / 0x1000 < 0xF0
    ensures (0xE0 + r / 0x1000) % 0x10 * 0x1000 + Low6(0x80 + r / 0x40 % 0x40) * 0x40 + Low6(0x80 + r % 0x40) == r
  {
    assert Low6(0x80 + r / 0x40 % 0x40) == r / 0x40 % 0x40;
    assert r / 0x40 == r / 0x1000 * 0x40 + r / 0x40 % 0x40;
  }

  lemma FourBytes(r: int)
    requires 0x1_0000 <= r < 0x20_0000
    ensures 0xF0 <= 0xF0 + r / 0x4_0000 < 0xF8
    ensures (0xF0 + r / 0x4_0000) % 0x08 * 0x4_0000 + Low6(0x80 + r / 0x1000 % 0x40) * 0x1000
      + Low6(0x80 + r / 0x40 % 0x40) * 0x40 + Low6(0x80 + r % 0x40) == r
  {
    assert Low6(0x80 + r / 0x40 % 0x40) == r / 0x40 % 0x40;
    assert Low6(0x80 + r / 0x1000 % 0x40) == r / 0x1000 % 0x40;
    assert r / 0x40 == r / 0x1000 * 0x40 + r / 0x40 % 0x40;
    assert r / 0x1000 == r / 0x4_0000 * 0x40 + r / 0x1000 % 0x40;
  }

  lemma DecodeEncoded(r: Rune, rest: seq<Byte>)
    ensures DecodeRune(EncodeRune(r) + rest) == (r, |EncodeRune(r)|)
  {
    hide Low6;
    var e := EncodeRune(r);
    var s := e + rest;
    assert |s| == |e| + |rest| && forall i :: 0 <= i < |e| ==> s[i] == e[i];
    if r < 0x80 {
    } else if r < 0x800 {
      TwoBytes(r);
    } else if r < 0x1_0000 {
      ThreeBytes(r);
    } else {
      FourBytes(r);
    }
  }

  lemma {:induction false} DecodeAllEncoded(rs: seq<Rune>)
    ensures DecodeAll(EncodeAll(rs)) == rs
    decreases |rs|
  {
    hide DecodeRune, EncodeRune;
    if rs != [] {
      var e, rest := EncodeRune(rs[0]), EncodeAll(rs[1..]);
      DecodeEncoded(rs[0], rest);
      assert (e + rest)[|e|..] == rest;
      DecodeAllEncoded(rs[1..]);
    }
  }

  // ----- the fast path

  lemma DangerousStartsWithAlarm(r: Rune)
    requires IsDangerousRune(r)
    ensures IsAlarm(EncodeRune(r)[0])
  {
  }

  /** Encoded text without an alarm byte holds no dangerous rune. */
  lemma {:induction false} NoAlarmNoDanger(rs: seq<Rune>)
    requires !HasAlarm(EncodeAll(rs))
    ensures AllSafe(rs)
    decreases |rs|
  {
    hide EncodeRune;
    if rs != [] {
      var s := EncodeAll(rs);
      var e, rest := EncodeRune(rs[0]), EncodeAll(rs[1..]);
      assert s == e + rest;
      forall i | 0 <= i < |rest| ensures !IsAlarm(rest[i]) { assert s[|e| + i] == rest[i]; }
      NoAlarmNoDanger(rs[1..]);
      assert s[0] == e[0];
      if IsDangerousRune(rs[0]) { DangerousStartsWithAlarm(rs[0]); }
      assert forall i :: 1 <= i < |rs| ==> rs[i] == rs[1..][i - 1];
    }
  }

  lemma {:induction false} SafeOfSafe(rs: seq<Rune>)
    ensures AllSafe(Safe(rs))
    ensures AllSafe(rs) ==> Safe(rs) == rs
    decreases |rs|
  {
    if rs != [] {
      SafeOfSafe(rs[1..]);
      assert forall i :: 1 <= i < |rs| ==> rs[1..][i - 1] == rs[i];
    }
  }

  // ----- what the filter guarantees

  /** A scalar value: what well-formed UTF-8 encodes (section 3 of RFC 3629). */
  predicate IsScalar(r: int) {
    0 <= r <= 0xD7FF || 0xE000 <= r <= 0x10_FFFF
  }

  /** On well-formed text the filter removes exactly the dangerous runes, whichever path it takes. */
  lemma WellFormedIsFiltered(rs: seq<Rune>)
    requires forall i :: 0 <= i < |rs| ==> IsScalar(rs[i])
    ensures Sanitized(EncodeAll(rs)) == EncodeAll(Safe(rs))
    ensures DecodeAll(Sanitized(EncodeAll(rs))) == Safe(rs) && AllSafe(Safe(rs))
  {
    EncodedIsFiltered(rs);
    DecodeAllEncoded(Safe(rs));
    SafeOfSafe(rs);
  }

  lemma EncodedIsFiltered(rs: seq<Rune>)
    ensures Sanitized(EncodeAll(rs)) == EncodeAll(Safe(rs))
  {
    DecodeAllEncoded(rs);
    if !HasAlarm(EncodeAll(rs)) {
      NoAlarmNoDanger(rs);
      SafeOfSafe(rs);
    }
  }

  /** On every byte string, well-formed or not, filtering twice is filtering once. */
  lemma SanitizedTwice(s: seq<Byte>)
    ensures Sanitized(Sanitized(s)) == Sanitized(s)
  {
    if HasAlarm(s) {
      var safe := Safe(DecodeAll(s));
      EncodedIsFiltered(safe);
      SafeOfSafe(DecodeAll(s));
      SafeOfSafe(safe);
    }
  }

  ghost predicate IsEncoding(s: seq<Byte>) {
    exists rs :: s == EncodeAll(rs)
  }

  /**
   Where the fast path applies, the slow path would have changed nothing exactly when the
   text is an encoding of runes; malformed bytes are returned as they are by the first
   and rewritten by the second.
   */
  lemma FastPathAgreesIff(s: seq<Byte>)
    requires !HasAlarm(s)
    ensures SlowPath(s) == Sanitized(s) <==> IsEncoding(s)
  {
    if rs :| s == EncodeAll(rs) {
      DecodeAllEncoded(rs);
      NoAlarmNoDanger(rs);
      SafeOfSafe(rs);
    }
  }

  lemma LoneContinuationByte()
    ensures Sanitized([0x80]) == [0x80] && SlowPath([0x80]) == [0xC2, 0x80] && !IsEncoding([0x80])
  {
    var s: seq<Byte> := [0x80];
    assert DecodeAll(s) == [0x80];
    assert Safe([0x80]) == [0x80];
    assert EncodeAll([0x80]) == EncodeRune(0x80) + EncodeAll([]);
    FastPathAgreesIff(s);
  }

  // ----- malformed text

  /** `part` occurs in `s` as consecutive bytes, starting at byte `u`. */
  predicate PartAt(s: seq<Byte>, part: seq<Byte>, u: nat) {
    u + |part| <= |s| && s[u..u + |part|] == part
  }

  lemma DangerousBytes(r: Rune)
    requires IsDangerousRune(r)
    ensures |EncodeRune(r)| == 3 && IsAlarm(EncodeRune(r)[0])
  {
  }

  /** A lead byte that raises the alarm starts a three-byte encoding, and no later byte raises it. */
  lemma AlarmInEncoding(r: Rune, u: nat)
    requires u < |EncodeRune(r)| && IsAlarm(EncodeRune(r)[u])
    ensures u == 0 && |EncodeRune(r)| == 3
  {
  }

  /** Where the encoding of a dangerous rune occurs among encoded runes, it is one of them. */
  lemma {:induction false} PartIsRune(rs: seq<Rune>, r: Rune, u: nat)
    requires IsDangerousRune(r) && PartAt(EncodeAll(rs), EncodeRune(r), u)
    ensures r in rs
  {
    hide EncodeRune, DecodeRune, IsDangerousRune;
    DangerousBytes(r);
    if rs != [] {
      var first, others := EncodeRune(rs[0]), EncodeAll(rs[1..]);
      var all := first + others;
      assert all[u..u + 3][0] == all[u];
      if u < |first| {
        assert first[u] == all[u];
        AlarmInEncoding(rs[0], u);
        assert all[0..3] == first;
        assert first + [] == first && EncodeRune(r) + [] == EncodeRune(r);
        DecodeEncoded(rs[0], []);
        DecodeEncoded(r, []);
      } else {
        assert all[u..u + 3] == others[u - |first|..u - |first| + 3];
        PartIsRune(rs[1..], r, u - |first|);
      }
    }
  }

  lemma PartRaisesAlarm(s: seq<Byte>, r: Rune, u: nat)
    requires IsDangerousRune(r) && PartAt(s, EncodeRune(r), u)
    ensures HasAlarm(s)
  {
    hide EncodeRune, IsDangerousRune;
    DangerousBytes(r);
    assert s[u..u + 3][0] == s[u];
  }

  /** The bytes of a dangerous rune occur nowhere in the result, whatever the input. */
  lemma NoDangerousBytes(s: seq<Byte>, r: Rune, u: nat)
    requires IsDangerousRune(r)
    ensures !PartAt(Sanitized(s), EncodeRune(r), u)
  {
    hide IsDangerousRune, EncodeRune, DecodeAll;
    DangerousBytes(r);
    if PartAt(Sanitized(s), EncodeRune(r), u) {
      if HasAlarm(s) {
        PartIsRune(Safe(DecodeAll(s)), r, u);
        SafeOfSafe(DecodeAll(s));
      } else {
        PartRaisesAlarm(s, r, u);
      }
    }
  }

  /** Four bytes that the code's decoder reads as a dangerous rune although none of them raises the alarm. */
  predicate OverlongAt(s: seq<Byte>) {
    |s| >= 4 && (s[0] == 0xF0 || s[0] == 0xF8) && IsDangerousRune(Low6(s[1]) * 0x1000 + Low6(s[2]) * 0x40 + Low6(s[3]))
  }

  /** Such bytes occur where the decoder starts on a rune. */
  predicate HidesRune(s: seq<Byte>)
    decreases |s|
  {
    s != [] && (OverlongAt(s) || HidesRune(s[DecodeRune(s).1..]))
  }

  lemma HiddenFirst(s: seq<Byte>)
    requires s != [] && !IsAlarm(s[0])
    ensures IsDangerousRune(DecodeRune(s).0) <==> OverlongAt(s)
  {
  }

  lemma {:induction false} DecodedIsSafeIff(s: seq<Byte>)
    requires !HasAlarm(s)
    ensures AllSafe(DecodeAll(s)) <==> !HidesRune(s)
    decreases |s|
  {
    if s != [] {
      hide DecodeRune, IsDangerousRune, OverlongAt;
      var rest := s[DecodeRune(s).1..];
      assert !IsAlarm(s[0]);
      HiddenFirst(s);
      assert forall i :: 0 <= i < |rest| ==> rest[i] == s[i + DecodeRune(s).1];
      DecodedIsSafeIff(rest);
      assert DecodeAll(s) == [DecodeRune(s).0] + DecodeAll(rest);
      assert DecodeAll(s)[0] == DecodeRune(s).0 && DecodeAll(s)[1..] == DecodeAll(rest);
      assert forall i :: 0 <= i < |DecodeAll(rest)| ==> DecodeAll(s)[i + 1] == DecodeAll(rest)[i];
    }
  }

  /** The code's own decoder reads only safe runes in the result, except where the fast path lets overlong bytes through. */
  lemma ReadsSafeIff(s: seq<Byte>)
    ensures AllSafe(DecodeAll(Sanitized(s))) <==> HasAlarm(s) || !HidesRune(s)
  {
    if HasAlarm(s) {
      DecodeAllEncoded(Safe(DecodeAll(s)));
      SafeOfSafe(DecodeAll(s));
    } else {
      DecodedIsSafeIff(s);
    }
  }

  /** An overlong zero-width space is returned as it is. */
  lemma OverlongIsKept()
    ensures var s: seq<Byte> := [0xF0, 0x82, 0x80, 0x8B];
      Sanitized(s) == s && DecodeAll(s) == [0x200B] && IsDangerousRune(0x200B)
  {
    var s: seq<Byte> := [0xF0, 0x82, 0x80, 0x8B];
    assert DecodeRune(s) == (0x200B, 4);
    assert s[4..] == [];
  }

  /** The runes removed, one by one: zero-width characters, the byte order mark, and the bidirectional controls. */
  lemma DangerousRunesAre(r: int)
    ensures IsDangerousRune(r) <==> r in {
      0x180E, 0x200B, 0x200C, 0x200D, 0x202A, 0x202B, 0x202C, 0x202D, 0x202E,
      0x2060, 0x2066, 0x2067, 0x2068, 0x2069, 0xFEFF}
  {
  }

  /** A byte of the form 10xxxxxx. */
  predicate IsTail(b: int) {
    0x80 <= b < 0xC0
  }

  lemma SixBits(r: nat)
    ensures r == r / 0x40 * 0x40 + r % 0x40 && r / 0x40 / 0x40 == r / 0x1000
  {
  }

  lemma Groups(r: nat)
    ensures r == r / 0x1000 * 0x1000 + r / 0x40 % 0x40 * 0x40 + r % 0x40
    ensures r == r / 0x4_0000 * 0x4_0000 + r / 0x1000 % 0x40 * 0x1000 + r / 0x40 % 0x40 * 0x40 + r % 0x40
  {
    SixBits(r);
    SixBits(r / 0x40);
    SixBits(r / 0x1000);
    assert r / 0x1000 / 0x40 == r / 0x4_0000;
  }

  /** What the bytes of one encoded rune say: lead bytes 0, 110, 1110 and 11110, and six bits in each further byte. */
  predicate Utf8(b: seq<int>, r: int) {
    match |b|
    case 1 => 0 <= r < 0x80 && b[0] == r
    case 2 =>
      0x80 <= r < 0x800 && 0xC0 <= b[0] < 0xE0 && IsTail(b[1]) && r == (b[0] - 0xC0) * 0x40 + (b[1] - 0x80)
    case 3 =>
      && 0x800 <= r < 0x1_0000 && 0xE0 <= b[0] < 0xF0 && IsTail(b[1]) && IsTail(b[2])
      && r == (b[0] - 0xE0) * 0x1000 + (b[1] - 0x80) * 0x40 + (b[2] - 0x80)
    case 4 =>
      && 0x1_0000 <= r && 0xF0 <= b[0] < 0xF8 && IsTail(b[1]) && IsTail(b[2]) && IsTail(b[3])
      && r == (b[0] - 0xF0) * 0x4_0000 + (b[1] - 0x80) * 0x1000 + (b[2] - 0x80) * 0x40 + (b[3] - 0x80)
    case _ => false
  }

  /** A rune's encoding is that of UTF-8 (section 3 of RFC 3629), never longer than needed. */
  lemma EncodingIsUtf8(r: Rune)
    ensures var e := EncodeRune(r); Utf8(seq(|e|, i requires 0 <= i < |e| => e[i] as int), r)
  {
    Groups(r);
  }

  // ----- malformed input

  /** The number of bytes a rune with this first byte takes in well-formed text; one for a byte that starts none. */
  function Width(b: int): nat {
    if b < 0xC2 then 1 else if b < 0xE0 then 2 else if b < 0xF0 then 3 else 4
  }

  /** A continuation byte out of place, an overlong lead, or a lead byte with too few bytes after it. */
  predicate StandsAlone(s: seq<Byte>) {
    s != [] && (0x80 <= s[0] < 0xC2 || (0xC2 <= s[0] && |s| < Width(s[0])))
  }

  /** Such a byte is rewritten as the two-byte encoding of its value, and what follows is read afresh. */
  lemma StrayBytesAreRunes(s: seq<Byte>)
    requires StandsAlone(s)
    ensures SlowPath(s) == EncodeRune(s[0]) + SlowPath(s[1..]) && |EncodeRune(s[0])| == 2
  {
    assert DecodeRune(s) == (s[0] as int, 1);
    assert DecodeAll(s) == [s[0]] + DecodeAll(s[1..]);
    assert Safe([s[0]] + DecodeAll(s[1..])) == [s[0]] + Safe(DecodeAll(s[1..])) by { SafeCons(s[0], DecodeAll(s[1..])); }
    var rest := Safe(DecodeAll(s[1..]));
    assert ([s[0]] + rest)[1..] == rest;
  }

  lemma SafeCons(r: Rune, rs: seq<Rune>)
    requires !IsDangerousRune(r)
    ensures Safe([r] + rs) == [r] + Safe(rs)
  {
    assert ([r] + rs)[1..] == rs;
  }

  /** A lead byte takes as many bytes as its rune needs, whatever they are, and of each further one only the low six bits count. */
  lemma TailsByLowBits(s: seq<Byte>, t: seq<Byte>)
    requires s != [] && t != [] && 0xC2 <= s[0] == t[0] && Width(s[0]) <= |s| && Width(s[0]) <= |t|
    requires forall i :: 0 < i < Width(s[0]) ==> s[i] as int % 0x40 == t[i] as int % 0x40
    ensures DecodeRune(s) == DecodeRune(t) && DecodeRune(s).1 == Width(s[0])
  {
  }
}
