/**
 * Shortening UTF-8 text to a byte budget without splitting a character. A byte is an integer from 0 to 255, and
 * valid text is the concatenation of encoded runes, RFC 3629, section 3.
 */
module RuneTruncation {

  newtype Byte = x: int | 0 <= x < 256

  type Rune = r: int | 0 <= r < 0x110000 && !(0xD800 <= r < 0xE000)

  /** "…", U+2026. */
  const ELLIPSIS: seq<Byte> := [0xE2, 0x80, 0xA6]

  function Tail(r: int): Byte {
    (0x80 + r % 0x40) as Byte
  }

  function RuneLen(r: Rune): nat {
    if r < 0x80 then 1 else if r < 0x800 then 2 else if r < 0x1_0000 then 3 else 4
  }

  function EncodeRune(r: Rune): (b: seq<Byte>)
    ensures |b| == RuneLen(r)
  {
    if r < 0x80 then [r as Byte]
    else if r < 0x800 then [(0xC0 + r / 0x40) as Byte, Tail(r)]
    else if r < 0x1_0000 then [(0xE0 + r / 0x1000) as Byte, Tail(r / 0x40), Tail(r)]
    else [(0xF0 + r / 0x4_0000) as Byte, Tail(r / 0x1000), Tail(r / 0x40), Tail(r)]
  }

  function Encode(runes: seq<Rune>): seq<Byte> {
    if runes == [] then [] else Encode(runes[..|runes| - 1]) + EncodeRune(runes[|runes| - 1])
  }

  ghost predicate ValidUtf8(s: seq<Byte>) {
    exists runes :: Encode(runes) == s
  }

  // ---- Decoding one rune ----

  function B(b: Byte): int { b as int }

  predicate IsTail(b: Byte) { 0x80 <= B(b) < 0xC0 }

  /** The rune at the head of a text and its width, as `range` over a string finds them. */
  function DecodeRune(s: seq<Byte>): (r: (Rune, nat))
    requires s != []
    ensures 1 <= r.1
  {
    var b := B(s[0]);
    if b < 0x80 then (b, 1)
    else if 0xC0 <= b < 0xE0 && |s| >= 2 && IsTail(s[1]) then
      Checked((b - 0xC0) * 0x40 + B(s[1]) - 0x80, 2)
    else if 0xE0 <= b < 0xF0 && |s| >= 3 && IsTail(s[1]) && IsTail(s[2]) then
      Checked((b - 0xE0) * 0x1000 + (B(s[1]) - 0x80) * 0x40 + B(s[2]) - 0x80, 3)
    else if 0xF0 <= b < 0xF8 && |s| >= 4 && IsTail(s[1]) && IsTail(s[2]) && IsTail(s[3]) then
      Checked((b - 0xF0) * 0x4_0000 + (B(s[1]) - 0x80) * 0x1000 + (B(s[2]) - 0x80) * 0x40 + B(s[3]) - 0x80, 4)
    else (0xFFFD, 1)
  }

  /** Surrogates, values out of range and encodings longer than need be are errors of one byte. */
  function Checked(r: int, width: nat): (Rune, nat) {
    if 0 <= r < 0x110000 && !(0xD800 <= r < 0xE000) && RuneLen(r) == width then (r, width) else (0xFFFD, 1)
  }

  lemma DecodeTwo(r: Rune, rest: seq<Byte>)
    requires 0x80 <= r < 0x800
    ensures DecodeRune(EncodeRune(r) + rest) == (r, 2)
  {
    var s := EncodeRune(r) + rest;
    assert B(s[0]) == 0xC0 + r / 0x40 && B(s[1]) == 0x80 + r % 0x40;
  }

  /** The base-64 digits of a number. */
  lemma ThreeDigits(r: nat)
    ensures r == r / 0x1000 * 0x1000 + r / 0x40 % 0x40 * 0x40 + r % 0x40
  {
    var q := r / 0x40;
    assert r == q * 0x40 + r % 0x40;
    assert q == q / 0x40 * 0x40 + q % 0x40;
    assert q / 0x40 == r / 0x1000;
  }

  lemma FourDigits(r: nat)
    ensures r == r / 0x4_0000 * 0x4_0000 + r / 0x1000 % 0x40 * 0x1000 + r / 0x40 % 0x40 * 0x40 + r % 0x40
  {
    ThreeDigits(r);
    var q := r / 0x1000;
    assert q == q / 0x40 * 0x40 + q % 0x40;
    assert q / 0x40 == r / 0x4_0000;
  }

  lemma DecodeThree(r: Rune, rest: seq<Byte>)
    requires 0x800 <= r < 0x1_0000
    ensures DecodeRune(EncodeRune(r) + rest) == (r, 3)
  {
    var s := EncodeRune(r) + rest;
    assert B(s[0]) == 0xE0 + r / 0x1000 && B(s[1]) == 0x80 + r / 0x40 % 0x40 && B(s[2]) == 0x80 + r % 0x40;
    ThreeDigits(r);
  }

  lemma DecodeFour(r: Rune, rest: seq<Byte>)
    requires 0x1_0000 <= r
    ensures DecodeRune(EncodeRune(r) + rest) == (r, 4)
  {
    var s := EncodeRune(r) + rest;
    assert B(s[0]) == 0xF0 + r / 0x4_0000 && B(s[1]) == 0x80 + r / 0x1000 % 0x40;
    assert B(s[2]) == 0x80 + r / 0x40 % 0x40 && B(s[3]) == 0x80 + r % 0x40;
    FourDigits(r);
  }

  /** Encoding a rune and decoding it in front of anything gives the rune and its length back. */
  lemma DecodeEncoded(r: Rune, rest: seq<Byte>)
    ensures DecodeRune(EncodeRune(r) + rest) == (r, RuneLen(r))
  {
    if r < 0x80 {
    } else if r < 0x800 {
      DecodeTwo(r, rest);
    } else if r < 0x1_0000 {
      DecodeThree(r, rest);
    } else {
      DecodeFour(r, rest);
    }
  }

  // ---- Prefixes ----

  /** The bytes of the first `k` runes. */
  function Offset(runes: seq<Rune>, k: nat): nat
    requires k <= |runes|
  {
    |Encode(runes[..k])|
  }

  lemma EncodeSnoc(runes: seq<Rune>, r: Rune)
    ensures Encode(runes + [r]) == Encode(runes) + EncodeRune(r)
  {
    assert (runes + [r])[..|runes|] == runes;
  }

  lemma Regroup<T>(a: seq<T>, b: seq<T>, c: seq<T>)
    ensures a + (b + c) == a + b + c
  {
  }

  lemma ConcatOneMore(a: seq<Rune>, front: seq<Rune>, last: Rune)
    requires Encode(a + front) == Encode(a) + Encode(front)
    ensures Encode(a + (front + [last])) == Encode(a) + Encode(front + [last])
  {
    Regroup(a, front, [last]);
    EncodeSnoc(a + front, last);
    EncodeSnoc(front, last);
    Regroup(Encode(a), Encode(front), EncodeRune(last));
  }

  lemma {:induction false} EncodeConcat(a: seq<Rune>, b: seq<Rune>)
    ensures Encode(a + b) == Encode(a) + Encode(b)
  {
    if b == [] {
      assert a + b == a;
    } else {
      var front, last := b[..|b| - 1], b[|b| - 1];
      EncodeConcat(a, front);
      ConcatOneMore(a, front, last);
      assert front + [last] == b;
    }
  }

  lemma EncodeSplit(runes: seq<Rune>, k: nat)
    requires k <= |runes|
    ensures Encode(runes) == Encode(runes[..k]) + Encode(runes[k..])
    ensures Offset(runes, k) <= |Encode(runes)|
    ensures Encode(runes)[..Offset(runes, k)] == Encode(runes[..k])
    ensures Encode(runes)[Offset(runes, k)..] == Encode(runes[k..])
  {
    assert runes == runes[..k] + runes[k..];
    EncodeConcat(runes[..k], runes[k..]);
  }

  lemma EncodeFirst(runes: seq<Rune>)
    requires runes != []
    ensures Encode(runes) == EncodeRune(runes[0]) + Encode(runes[1..])
  {
    assert runes == [runes[0]] + runes[1..];
    EncodeConcat([runes[0]], runes[1..]);
    assert Encode([runes[0]]) == EncodeRune(runes[0]);
  }

  /** At the offset of rune `k` the text decodes to that rune, and the next offset is its length further on. */
  lemma AtRune(runes: seq<Rune>, k: nat)
    requires k < |runes|
    ensures Offset(runes, k) < |Encode(runes)|
    ensures DecodeRune(Encode(runes)[Offset(runes, k)..]) == (runes[k], RuneLen(runes[k]))
    ensures Offset(runes, k + 1) == Offset(runes, k) + RuneLen(runes[k])
  {
    EncodeSplit(runes, k);
    EncodeFirst(runes[k..]);
    DecodeEncoded(runes[k], Encode(runes[k..][1..]));
    NextOffset(runes, k);
  }

  lemma NextOffset(runes: seq<Rune>, k: nat)
    requires k < |runes|
    ensures Offset(runes, k + 1) == Offset(runes, k) + RuneLen(runes[k])
  {
    assert runes[..k + 1][..k] == runes[..k];
  }

  lemma {:induction false} OffsetsGrow(runes: seq<Rune>, j: nat, k: nat)
    requires j <= k <= |runes|
    ensures Offset(runes, j) <= Offset(runes, k)
    ensures j < k ==> Offset(runes, j) < Offset(runes, k)
  {
    if j < k {
      OffsetsGrow(runes, j, k - 1);
      AtRune(runes, k - 1);
    }
  }

  // ---- Truncation ----

  /** The first `k` runes are the longest whole-rune prefix of at most `limit` bytes. */
  ghost predicate LongestWithin(runes: seq<Rune>, k: nat, limit: int) {
    && k <= |runes|
    && Offset(runes, k) <= limit
    && forall j | k < j <= |runes| :: Offset(runes, j) > limit
  }

  /** `r` is what is left of `s` after dropping bytes past the budget and then continuation bytes off the end. */
  ghost predicate CutByBytes(s: seq<Byte>, maxBytes: nat, r: seq<Byte>) {
    && r <= s && |r| <= maxBytes <= |s|
    && (r == [] || !IsTail(r[|r| - 1]))
    && forall i | |r| <= i < maxBytes :: IsTail(s[i])
  }

  /** The longest whole-rune prefix that leaves room for the ellipsis, and the ellipsis. */
  ghost predicate CutByRunes(s: seq<Byte>, maxBytes: int, r: seq<Byte>) {
    exists runes: seq<Rune>, k: nat ::
      s == Encode(runes) && LongestWithin(runes, k, maxBytes - 3) && r == Encode(runes[..k]) + ELLIPSIS
  }

  /** Any bytes are cut to the budget; valid text is cut by whole runes. */
  method TruncateRunes(s: seq<Byte>, maxBytes: int) returns (r: seq<Byte>)
    ensures 3 < maxBytes < |s| ==> |r| <= maxBytes && |r| >= 3 && r[..|r| - 3] <= s && r[|r| - 3..] == ELLIPSIS
    ensures maxBytes <= 0 || |s| <= maxBytes ==> r == s
    ensures 0 < maxBytes <= 3 && maxBytes < |s| ==> CutByBytes(s, maxBytes, r)
    ensures 3 < maxBytes < |s| && ValidUtf8(s) ==> CutByRunes(s, maxBytes, r)
    ensures 0 < maxBytes <= 3 && maxBytes < |s| && ValidUtf8(s) ==> (ValidUtf8(r) <==> B(s[maxBytes - 1]) < 0x80)
  {
    if maxBytes <= 0 || |s| <= maxBytes {
      return s;
    }
    var limit := maxBytes - |ELLIPSIS|;
    if limit <= 0 {
      var i := maxBytes;
      while i > 0 && IsTail(s[i - 1])
        invariant 0 <= i <= maxBytes
        invariant forall j | i <= j < maxBytes :: IsTail(s[j])
      {
        i := i - 1;
      }
      r := s[..i];
      if ValidUtf8(s) {
        SmallBudgetValidity(s, maxBytes, r);
      }
      return;
    }
    var end := 0;
    var i := 0;
    ghost var valid := ValidUtf8(s);
    ghost var runes: seq<Rune> := if valid then (var x :| Encode(x) == s; x) else [];
    ghost var k: nat := 0;
    assert runes[..|runes|] == runes;
    while i < |s|
      invariant 0 <= end <= limit && 0 <= i
      invariant valid ==> k <= |runes| && i == end == Offset(runes, k)
      decreases |s| - i
    {
      if valid {
        assert k < |runes|;
        AtRune(runes, k);
      }
      var (rune, width) := DecodeRune(s[i..]);
      var size := RuneLen(rune);
      if i + size > limit {
        break;
      }
      end := i + size;
      i := i + width;
      k := k + 1;
    }
    if valid {
      assert k < |runes|;
      NextIsTooLong(runes, k, limit);
      EncodeSplit(runes, k);
    }
    return s[..end] + ELLIPSIS;
  }

  lemma NextIsTooLong(runes: seq<Rune>, k: nat, limit: int)
    requires k < |runes| && Offset(runes, k) <= limit < Offset(runes, k) + RuneLen(runes[k])
    ensures LongestWithin(runes, k, limit)
  {
    AtRune(runes, k);
    forall j | k < j <= |runes|
      ensures Offset(runes, j) > limit
    {
      OffsetsGrow(runes, k + 1, j);
    }
  }

  lemma EllipsisIsValid(runes: seq<Rune>)
    ensures ValidUtf8(Encode(runes) + ELLIPSIS)
  {
    assert EncodeRune(0x2026) == ELLIPSIS;
    assert (runes + [0x2026])[..|runes|] == runes;
    assert Encode(runes + [0x2026]) == Encode(runes) + ELLIPSIS;
  }

  /** A text cut by runes is valid, fits the budget, and is the input's own beginning up to the ellipsis. */
  lemma CutByRunesIsValid(s: seq<Byte>, maxBytes: int, r: seq<Byte>)
    requires CutByRunes(s, maxBytes, r)
    ensures ValidUtf8(r) && |r| <= maxBytes
    ensures |r| >= 3 && r[..|r| - 3] <= s && r[|r| - 3..] == ELLIPSIS
  {
    var runes: seq<Rune>, k: nat :|
      s == Encode(runes) && LongestWithin(runes, k, maxBytes - 3) && r == Encode(runes[..k]) + ELLIPSIS;
    EllipsisIsValid(runes[..k]);
    EncodeSplit(runes, k);
  }

  // ---- Budgets too small for the ellipsis ----

  lemma RuneBytes(r: Rune)
    ensures var b := EncodeRune(r);
            && (|b| > 1 ==> IsTail(b[|b| - 1]))
            && (|b| == 1 ==> B(b[0]) < 0x80)
            && forall i | 0 <= i < |b| && |b| > 1 :: B(b[i]) >= 0x80
  {
  }

  lemma LastByte(runes: seq<Rune>)
    requires runes != []
    ensures var s := Encode(runes); s != [] && (B(s[|s| - 1]) < 0x80 || IsTail(s[|s| - 1]))
  {
    RuneBytes(runes[|runes| - 1]);
  }

  /** An ASCII byte ends a rune, so cutting behind it leaves valid text. */
  lemma {:induction false} CutAfterAscii(runes: seq<Rune>, n: nat)
    requires 1 <= n <= |Encode(runes)| && B(Encode(runes)[n - 1]) < 0x80
    ensures ValidUtf8(Encode(runes)[..n])
  {
    var front, last := runes[..|runes| - 1], runes[|runes| - 1];
    var s, head := Encode(runes), Encode(front);
    if n <= |head| {
      assert s[n - 1] == head[n - 1];
      assert s[..n] == head[..n];
      CutAfterAscii(front, n);
    } else {
      RuneBytes(last);
      assert s[n - 1] == EncodeRune(last)[n - 1 - |head|];
      assert s[..n] == s;
    }
  }

  /** The result is valid exactly when it is empty or ends in an ASCII byte. */
  lemma CutValidity(s: seq<Byte>, maxBytes: nat, r: seq<Byte>)
    requires ValidUtf8(s) && CutByBytes(s, maxBytes, r)
    ensures ValidUtf8(r) <==> r == [] || B(r[|r| - 1]) < 0x80
  {
    if r == [] {
      assert Encode([]) == r;
    } else if B(r[|r| - 1]) < 0x80 {
      var runes :| Encode(runes) == s;
      CutAfterAscii(runes, |r|);
      assert s[..|r|] == r;
    } else if ValidUtf8(r) {
      var runes :| Encode(runes) == r;
      LastByte(runes);
    }
  }

  lemma FirstByte(runes: seq<Rune>)
    requires runes != []
    ensures Encode(runes) != [] && !IsTail(Encode(runes)[0])
  {
    EncodeFirst(runes);
  }

  lemma FirstOfRune(r: Rune)
    ensures !IsTail(EncodeRune(r)[0])
    ensures forall i | 0 <= i < RuneLen(r) :: 1 < RuneLen(r) ==> B(EncodeRune(r)[i]) >= 0x80
  {
    RuneBytes(r);
  }

  /** A continuation byte never follows an ASCII byte. */
  lemma {:induction false} TailFollowsNoAscii(runes: seq<Rune>, n: nat)
    requires 1 <= n < |Encode(runes)| && IsTail(Encode(runes)[n])
    ensures B(Encode(runes)[n - 1]) >= 0x80
  {
    var front, last := runes[..|runes| - 1], runes[|runes| - 1];
    var s, head := Encode(runes), Encode(front);
    if n < |head| {
      assert s[n] == head[n] && s[n - 1] == head[n - 1];
      TailFollowsNoAscii(front, n);
    } else {
      FirstOfRune(last);
      assert s[n] == EncodeRune(last)[n - |head|];
      assert n != |head|;
      assert s[n - 1] == EncodeRune(last)[n - 1 - |head|];
    }
  }

  /**
   * A budget of one to three bytes may split a character of valid text: the result is valid exactly when the last
   * byte within the budget is ASCII. Otherwise a character is cut behind its first byte, whether or not all of it
   * would have fitted.
   */
  lemma SmallBudgetValidity(s: seq<Byte>, maxBytes: nat, r: seq<Byte>)
    requires ValidUtf8(s) && CutByBytes(s, maxBytes, r) && 0 < maxBytes
    ensures ValidUtf8(r) <==> B(s[maxBytes - 1]) < 0x80
  {
    var runes :| Encode(runes) == s;
    FirstByte(runes);
    assert r != [];
    CutValidity(s, maxBytes, r);
    var n := |r|;
    assert r[n - 1] == s[n - 1];
    if n < maxBytes {
      TailFollowsNoAscii(runes, n);
    }
  }

  /** Three bytes would have kept the first character whole. */
  lemma WholeCharacterIsSplit()
    ensures var s: seq<Byte> := [0xE2, 0x82, 0xAC, 0x41];
            && ValidUtf8(s) && ValidUtf8(s[..3])
            && (forall r :: CutByBytes(s, 3, r) ==> r == [0xE2] && !ValidUtf8(r))
  {
    var s: seq<Byte> := [0xE2, 0x82, 0xAC, 0x41];
    var euro: seq<Rune> := [0x20AC];
    assert Encode([]) == [];
    assert euro[..0] == [] && Encode(euro) == [0xE2, 0x82, 0xAC] == s[..3];
    assert (euro + [0x41])[..1] == euro;
    assert Encode(euro + [0x41]) == s;
    forall r | CutByBytes(s, 3, r)
      ensures r == [0xE2] && !ValidUtf8(r)
    {
      SmallBudgetValidity(s, 3, r);
      assert IsTail(s[1]) && IsTail(s[2]);
      assert |r| == 1 && r == s[..1];
    }
  }

  // ---- Uniqueness ----

  lemma SameFirstRune(a: seq<Rune>, b: seq<Rune>)
    requires Encode(a) == Encode(b) && a != [] && b != []
    ensures a[0] == b[0] && Encode(a[1..]) == Encode(b[1..])
  {
    EncodeFirst(a);
    EncodeFirst(b);
    var s, t := Encode(a[1..]), Encode(b[1..]);
    DecodeEncoded(a[0], s);
    DecodeEncoded(b[0], t);
    assert s == (EncodeRune(a[0]) + s)[RuneLen(a[0])..];
    assert t == (EncodeRune(b[0]) + t)[RuneLen(b[0])..];
  }

  /** Valid text is the encoding of one sequence of runes, so there is one longest prefix to cut to. */
  lemma {:induction false} EncodingIsInjective(a: seq<Rune>, b: seq<Rune>)
    requires Encode(a) == Encode(b)
    ensures a == b
  {
    if a == [] || b == [] {
      assert |Encode(a)| == 0 <==> a == [];
    } else {
      SameFirstRune(a, b);
      EncodingIsInjective(a[1..], b[1..]);
      assert a == [a[0]] + a[1..] && b == [b[0]] + b[1..];
    }
  }

  /** Being cut by runes fixes the result. */
  lemma CutByRunesIsUnique(s: seq<Byte>, maxBytes: int, r: seq<Byte>, t: seq<Byte>)
    requires CutByRunes(s, maxBytes, r) && CutByRunes(s, maxBytes, t)
    ensures r == t
  {
    var a: seq<Rune>, j: nat :|
      s == Encode(a) && LongestWithin(a, j, maxBytes - 3) && r == Encode(a[..j]) + ELLIPSIS;
    var b: seq<Rune>, k: nat :|
      s == Encode(b) && LongestWithin(b, k, maxBytes - 3) && t == Encode(b[..k]) + ELLIPSIS;
    EncodingIsInjective(a, b);
    assert j == k;
  }
}
