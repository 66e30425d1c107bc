/** Base32 as section 6 of RFC 4648 gives it, bits regrouped from eight to five at a time, with
    the padding stripped on the way out and put back on the way in. (src/join_ticket.py:92-98) */
module Base32 {
  import opened Basics
  import opened Wrappers

  // ------------------------------------------------------------------ numbers and their bits

  function Number(bits: seq<bool>): nat {
    if bits == [] then 0 else Number(bits[..|bits| - 1]) * 2 + if bits[|bits| - 1] then 1 else 0
  }

  /** The last `n` bits of a number, the leading one first. */
  function Bits(v: nat, n: nat): (r: seq<bool>)
    ensures |r| == n
  {
    if n == 0 then [] else Bits(v / 2, n - 1) + [v % 2 == 1]
  }

  function Pow2(n: nat): nat {
    if n == 0 then 1 else Pow2(n - 1) * 2
  }

  lemma {:induction false} BitsOfNumber(bits: seq<bool>)
    ensures Bits(Number(bits), |bits|) == bits && Number(bits) < Pow2(|bits|)
  {
    if bits != [] {
      BitsOfNumber(bits[..|bits| - 1]);
    }
  }

  lemma {:induction false} NumberOfBits(v: nat, n: nat)
    requires v < Pow2(n)
    ensures Number(Bits(v, n)) == v
  {
    if n > 0 {
      NumberOfBits(v / 2, n - 1);
      assert Bits(v, n)[..n - 1] == Bits(v / 2, n - 1);
    }
  }

  lemma {:induction false} Pow2Positive(n: nat)
    ensures Pow2(n) >= 1
  {
    if n > 0 {
      Pow2Positive(n - 1);
    }
  }

  lemma HalfThen(v: nat, p: nat)
    requires p > 0
    ensures v / 2 / p == v / (p * 2)
  {
    var q, r := v / 2 / p, v / 2 % p;
    Doubled(v / 2, q, p, r);
    Quotient(v, p * 2, q, r * 2 + v % 2);
  }

  lemma Doubled(h: nat, q: nat, p: nat, r: nat)
    requires p > 0 && q == h / p && r == h % p
    ensures 2 * h == q * (p * 2) + r * 2 && r < p
  {
  }

  /** The most significant bit comes first. */
  lemma {:induction false} BitAt(v: nat, n: nat, i: nat)
    requires i < n
    ensures Pow2(n - 1 - i) > 0 && Bits(v, n)[i] == (v / Pow2(n - 1 - i) % 2 == 1)
  {
    Pow2Positive(n - 1 - i);
    if i < n - 1 {
      Pow2Positive(n - 2 - i);
      BitAt(v / 2, n - 1, i);
      HalfThen(v, Pow2(n - 2 - i));
    }
  }

  /** `w` bits at a time, each as a number; bits left over at the end are dropped. */
  function Pieces(bits: seq<bool>, w: nat): seq<nat>
    requires w > 0
    decreases |bits|
  {
    if |bits| < w then [] else [Number(bits[..w])] + Pieces(bits[w..], w)
  }

  /** Each number as `w` bits. */
  function Spread(digits: seq<nat>, w: nat): seq<bool> {
    if digits == [] then [] else Bits(digits[0], w) + Spread(digits[1..], w)
  }

  predicate Below(digits: seq<nat>, bound: nat) {
    forall i :: 0 <= i < |digits| ==> digits[i] < bound
  }

  lemma {:induction false} PiecesOfSpread(digits: seq<nat>, w: nat, extra: seq<bool>)
    requires w > 0 && Below(digits, Pow2(w)) && |extra| < w
    ensures Pieces(Spread(digits, w) + extra, w) == digits
  {
    hide Pow2, Number, Bits, Pieces;
    if digits == [] {
      assert Spread(digits, w) + extra == extra;
      PiecesNone(extra, w);
    } else {
      NumberOfBits(digits[0], w);
      PiecesOfSpread(digits[1..], w, extra);
      assert Spread(digits, w) + extra == Bits(digits[0], w) + (Spread(digits[1..], w) + extra);
      PiecesFirst(Bits(digits[0], w), Spread(digits[1..], w) + extra, w);
      assert digits == [digits[0]] + digits[1..];
    }
  }

  lemma PiecesNone(bits: seq<bool>, w: nat)
    requires |bits| < w
    ensures Pieces(bits, w) == []
  {
  }

  lemma PiecesFirst(first: seq<bool>, rest: seq<bool>, w: nat)
    requires |first| == w && w > 0
    ensures Pieces(first + rest, w) == [Number(first)] + Pieces(rest, w)
  {
    assert (first + rest)[..w] == first && (first + rest)[w..] == rest;
  }

  lemma {:induction false} FivesOf(bits: seq<bool>)
    requires |bits| % 5 == 0
    ensures Spread(Pieces(bits, 5), 5) == bits
    ensures |Pieces(bits, 5)| * 5 == |bits| && Below(Pieces(bits, 5), 32)
    decreases |bits|
  {
    if bits != [] {
      BitsOfNumber(bits[..5]);
      Thirtytwo();
      FivesOf(bits[5..]);
      assert bits == bits[..5] + bits[5..];
    }
  }

  lemma {:induction false} EightsOf(bits: seq<bool>)
    ensures |Pieces(bits, 8)| == |bits| / 8 && Below(Pieces(bits, 8), 256)
    decreases |bits|
  {
    if |bits| >= 8 {
      BitsOfNumber(bits[..8]);
      Thirtytwo();
      EightsOf(bits[8..]);
    }
  }

  lemma Thirtytwo()
    ensures Pow2(5) == 32 && Pow2(8) == 256
  {
  }

  lemma {:induction false} SpreadLengths(digits: seq<nat>)
    ensures |Spread(digits, 5)| == 5 * |digits| && |Spread(digits, 8)| == 8 * |digits|
  {
    if digits != [] {
      SpreadLengths(digits[1..]);
    }
  }

  // ------------------------------------------------------------------ bytes and digits

  function Zeros(n: nat): seq<bool> {
    seq(n, _ => false)
  }

  function Digits(raw: seq<Byte>): seq<nat> {
    var bits := Spread(raw, 8);
    Pieces(bits + Zeros((5 - |bits| % 5) % 5), 5)
  }

  function Bytes(digits: seq<nat>): (r: seq<Byte>) {
    EightsOf(Spread(digits, 5));
    Pieces(Spread(digits, 5), 8)
  }

  lemma DigitsLength(raw: seq<Byte>)
    ensures |Digits(raw)| == (8 * |raw| + 4) / 5 && Below(Digits(raw), 32)
  {
    hide Spread, Pieces, Below;
    SpreadLengths(raw);
    var bits := Spread(raw, 8);
    Padded(|bits|);
    FivesOf(bits + Zeros((5 - |bits| % 5) % 5));
  }

  lemma Padded(n: nat)
    ensures (n + (5 - n % 5) % 5) % 5 == 0 && n + (5 - n % 5) % 5 == (n + 4) / 5 * 5
  {
  }

  /** The digits' bits are the bytes' bits, with fewer than five zeros behind them. */
  lemma DigitsKeepBits(raw: seq<Byte>)
    ensures var bits := Spread(raw, 8);
            exists n :: 0 <= n < 5 && Spread(Digits(raw), 5) == bits + Zeros(n)
  {
    hide Spread, Pieces;
    var bits := Spread(raw, 8);
    FivesOf(bits + Zeros((5 - |bits| % 5) % 5));
  }

  lemma BytesOfDigits(raw: seq<Byte>)
    ensures Bytes(Digits(raw)) == raw
  {
    hide Spread, Pieces;
    var bits := Spread(raw, 8);
    var zeros := Zeros((5 - |bits| % 5) % 5);
    FivesOf(bits + zeros);
    Thirtytwo();
    PiecesOfSpread(raw, 8, zeros);
  }

  // ------------------------------------------------------------------ text

  function Letter(d: nat): char
    requires d < 32
  {
    if d < 26 then 'A' + d as char else '2' + (d - 26) as char
  }

  function Digit(c: char): Option<nat> {
    if 'A' <= c <= 'Z' then Some((c - 'A') as nat)
    else if '2' <= c <= '7' then Some((c - '2') as nat + 26)
    else None
  }

  predicate InAlphabet(text: string) {
    forall i :: 0 <= i < |text| ==> Digit(text[i]).Some?
  }

  function Letters(digits: seq<nat>): (text: string)
    requires Below(digits, 32)
    ensures |text| == |digits| && forall i :: 0 <= i < |text| ==> text[i] == Letter(digits[i])
  {
    seq(|digits|, i requires 0 <= i < |digits| => Letter(digits[i]))
  }

  function Values(text: string): (digits: seq<nat>)
    requires InAlphabet(text)
    ensures |digits| == |text| && forall i :: 0 <= i < |text| ==> digits[i] == Digit(text[i]).value
  {
    seq(|text|, i requires 0 <= i < |text| => Digit(text[i]).value)
  }

  /** The encoder, its padding stripped. */
  function Encode(raw: seq<Byte>): string {
    DigitsLength(raw);
    Letters(Digits(raw))
  }

  function StripPadding(text: string): (r: string)
    ensures |r| <= |text| && (r == [] || r[|r| - 1] != '=')
  {
    if text != [] && text[|text| - 1] == '=' then StripPadding(text[..|text| - 1]) else text
  }

  /** The decoder behind restored padding: the length must be one that whole bytes leave, and
      every character a digit; bits beyond the last byte are not looked at. */
  function Decode(text: string): Option<seq<Byte>> {
    var stripped := StripPadding(text);
    var padding := |text| + (8 - |text| % 8) % 8 - |stripped|;
    if padding in {0, 1, 3, 4, 6} && InAlphabet(stripped) then Some(Bytes(Values(stripped))) else None
  }

  lemma LetterIsDigit(d: nat)
    requires d < 32
    ensures Digit(Letter(d)) == Some(d) && Letter(d) != '='
  {
  }

  lemma LettersRead(digits: seq<nat>)
    requires Below(digits, 32)
    ensures InAlphabet(Letters(digits)) && Values(Letters(digits)) == digits
    ensures StripPadding(Letters(digits)) == Letters(digits)
  {
    hide Letter, Digit;
    var text := Letters(digits);
    forall i | 0 <= i < |text| ensures Digit(text[i]) == Some(digits[i]) && text[i] != '=' {
      LetterIsDigit(digits[i]);
    }
  }

  lemma PaddingFits(n: nat)
    ensures var width := (8 * n + 4) / 5;
            (8 - width % 8) % 8 in {0, 1, 3, 4, 6}
  {
  }

  /** What is written is in the alphabet, as long as the standard says, and read back as the
      bytes it was written from. */
  lemma RoundTrip(raw: seq<Byte>)
    ensures InAlphabet(Encode(raw)) && |Encode(raw)| == (8 * |raw| + 4) / 5
    ensures Decode(Encode(raw)) == Some(raw)
  {
    hide Digits, Bytes, Letters, Values, StripPadding, InAlphabet;
    DigitsLength(raw);
    LettersRead(Digits(raw));
    PaddingFits(|raw|);
    BytesOfDigits(raw);
  }

  /** Table 3 of the standard. */
  const ALPHABET := "ABCDEFGHIJKLMNOPQRSTUVWXYZ234567"

  lemma AlphabetIsStandard()
    ensures |ALPHABET| == 32
    ensures forall d :: 0 <= d < 32 ==> Letter(d) == ALPHABET[d]
    ensures forall c :: Digit(c).Some? <==> c in ALPHABET
  {
    forall d | 0 <= d < 32 ensures Letter(d) == ALPHABET[d] {
    }
    forall c | Digit(c).Some? ensures c in ALPHABET {
      assert ALPHABET[Digit(c).value] == c;
    }
  }
}
