/** Bounded normalisation of text to UTF-8 (RFC 3629). */
module Utf8 {
  type Byte = b: int | 0 <= b < 256

  const MAX_RETAINED_TEXT_BYTES: nat := 16 * 1024

  /** U+FFFD, the replacement character. */
  const REPLACEMENT: seq<Byte> := [0xEF, 0xBF, 0xBD]

  predicate Tail(b: Byte) { 0x80 <= b <= 0xBF }

  /** Second bytes that keep a three- or four-byte character shortest, outside the
      surrogates and within U+10FFFF (section 4 of RFC 3629). */
  predicate Second(first: Byte, b: Byte) {
    match first
    case 0xE0 => 0xA0 <= b <= 0xBF
    case 0xED => 0x80 <= b <= 0x9F
    case 0xF0 => 0x90 <= b <= 0xBF
    case 0xF4 => 0x80 <= b <= 0x8F
    case _ => Tail(b)
  }

  /** The bytes of the character at the front, 0 when it is malformed. */
  function Width(s: seq<Byte>): (w: nat)
    ensures w <= |s| && w <= 4
  {
    if s == [] then 0
    else if s[0] <= 0x7F then 1
    else if 0xC2 <= s[0] <= 0xDF && |s| >= 2 && Tail(s[1]) then 2
    else if 0xE0 <= s[0] <= 0xEF && |s| >= 3 && Second(s[0], s[1]) && Tail(s[2]) then 3
    else if 0xF0 <= s[0] <= 0xF4 && |s| >= 4 && Second(s[0], s[1]) && Tail(s[2]) && Tail(s[3]) then 4
    else 0
  }

  /** A sequence of well-formed characters. */
  predicate Valid(s: seq<Byte>) {
    s == [] || (Width(s) > 0 && Valid(s[Width(s)..]))
  }

  /** Source bytes of the next unit: a character, or one malformed byte. */
  function Step(s: seq<Byte>): (n: nat)
    requires s != []
    ensures 1 <= n <= |s|
  {
    if Width(s) == 0 then 1 else Width(s)
  }

  /** What the next unit turns into. */
  function Unit(s: seq<Byte>): seq<Byte>
    requires s != []
  {
    if Width(s) == 0 then REPLACEMENT else s[..Width(s)]
  }

  /** Every malformed byte replaced, without any limit. */
  function Replaced(s: seq<Byte>): seq<Byte> {
    if s == [] then [] else Unit(s) + Replaced(s[Step(s)..])
  }

  datatype Normal = Normal(text: seq<Byte>, truncated: bool)

  /** The replacing loop with room for limit more bytes. */
  function Bounded(s: seq<Byte>, limit: int): Normal {
    if s == [] then Normal([], false)
    else if |Unit(s)| > limit then Normal([], true)
    else
      var rest := Bounded(s[Step(s)..], limit - |Unit(s)|);
      Normal(Unit(s) + rest.text, rest.truncated)
  }

  /** How many source bytes the loop consumes. */
  function Consumed(s: seq<Byte>, limit: int): (n: nat)
    ensures n <= |s|
  {
    if s == [] || |Unit(s)| > limit then 0
    else Step(s) + Consumed(s[Step(s)..], limit - |Unit(s)|)
  }

  // ---- characters

  lemma WidthOfPrefix(p: seq<Byte>, s: seq<Byte>)
    requires p <= s
    ensures Width(p) > 0 ==> Width(s) == Width(p)
  {
  }

  /** A unit is decided by its own source bytes. */
  lemma UnitOfFront(s: seq<Byte>, k: nat)
    requires s != [] && Step(s) <= k <= |s|
    ensures Unit(s[..k]) == Unit(s) && Step(s[..k]) == Step(s)
  {
    WidthOfPrefix(s[..k], s);
    assert Width(s) > 0 ==> Width(s[..k]) == Width(s);
    assert s[..k][..Width(s)] == s[..Width(s)];
  }

  lemma UnitIsCharacter(s: seq<Byte>, t: seq<Byte>)
    requires s != []
    ensures Width(Unit(s) + t) == |Unit(s)| > 0
  {
  }

  lemma ValidAppend(s: seq<Byte>, t: seq<Byte>)
    requires s != [] && Valid(t)
    ensures Valid(Unit(s) + t)
  {
    UnitIsCharacter(s, t);
    assert (Unit(s) + t)[|Unit(s)|..] == t;
  }

  // ---- what well-formed means

  /** A Unicode scalar value. */
  predicate Scalar(c: nat) { c <= 0x10FFFF && !(0xD800 <= c <= 0xDFFF) }

  /** Section 3 of RFC 3629. */
  function Encode(c: nat): (s: seq<Byte>)
    requires Scalar(c)
    ensures 1 <= |s| <= 4
  {
    if c <= 0x7F then [c]
    else if c <= 0x7FF then [0xC0 + c / 64, 0x80 + c % 64]
    else if c <= 0xFFFF then [0xE0 + c / 4096, 0x80 + c / 64 % 64, 0x80 + c % 64]
    else [0xF0 + c / 262144, 0x80 + c / 4096 % 64, 0x80 + c / 64 % 64, 0x80 + c % 64]
  }

  lemma Split(q: nat, r: nat, base: nat)
    requires r < base && (base == 64 || base == 4096 || base == 262144)
    ensures (base * q + r) / base == q && (base * q + r) % base == r
  {
  }

  lemma Digits(a: nat, b: nat, c: nat, d: nat)
    requires b < 64 && c < 64 && d < 64
    ensures var n := 262144 * a + 4096 * b + 64 * c + d;
      n / 262144 == a && n / 4096 == 64 * a + b && n / 4096 % 64 == b && n / 64 % 64 == c && n % 64 == d
  {
    var k := 64 * a + b;
    Split(k, 64 * c + d, 4096);
    Split(64 * k + c, d, 64);
    Split(k, c, 64);
    Split(a, 4096 * b + 64 * c + d, 262144);
    Split(a, b, 64);
  }

  /** A well-formed front is the encoding of a scalar value. */
  lemma Decode(s: seq<Byte>) returns (c: nat)
    requires Width(s) > 0
    ensures Scalar(c) && Encode(c) == s[..Width(s)]
  {
    match Width(s) {
      case 1 => c := s[0];
      case 2 =>
        c := 64 * (s[0] - 0xC0 as int) + s[1] - 0x80;
        Digits(0, 0, s[0] - 0xC0, s[1] - 0x80);
      case 3 => c := DecodeThree(s[0], s[1], s[2]);
      case 4 => c := DecodeFour(s[0], s[1], s[2], s[3]);
      case _ =>
    }
  }

  lemma DecodeThree(a: int, b: int, c: int) returns (n: nat)
    requires 0xE0 <= a <= 0xEF && 0x80 <= b <= 0xBF && 0x80 <= c <= 0xBF && Second(a, b)
    ensures Scalar(n) && Encode(n) == [a, b, c]
  {
    Digits(0, a - 0xE0, b - 0x80, c - 0x80);
    n := 4096 * (a - 0xE0) + 64 * (b - 0x80) + c - 0x80;
  }

  lemma DecodeFour(a: int, b: int, c: int, d: int) returns (n: nat)
    requires 0xF0 <= a <= 0xF4 && 0x80 <= b <= 0xBF && 0x80 <= c <= 0xBF && 0x80 <= d <= 0xBF && Second(a, b)
    ensures Scalar(n) && Encode(n) == [a, b, c, d]
  {
    Digits(a - 0xF0, b - 0x80, c - 0x80, d - 0x80);
    n := 262144 * (a - 0xF0) + 4096 * (b - 0x80) + 64 * (c - 0x80) + d - 0x80;
  }

  lemma EncodedHasWidth(c: nat, s: seq<Byte>)
    requires Scalar(c) && Encode(c) <= s
    ensures Width(s) == |Encode(c)|
  {
    assert s[0] == Encode(c)[0];
    assert |Encode(c)| > 1 ==> s[1] == Encode(c)[1];
    assert |Encode(c)| > 2 ==> s[2] == Encode(c)[2];
    assert |Encode(c)| > 3 ==> s[3] == Encode(c)[3];
  }

  lemma StrayIsMalformed(s: seq<Byte>)
    requires forall c :: Scalar(c) ==> !(Encode(c) <= s)
    ensures Width(s) == 0
  {
    if Width(s) > 0 {
      var c := Decode(s);
      assert false;
    }
  }

  /** What a text is made of: characters, and bytes at which no character begins. */
  datatype Piece = Character(c: nat) | Stray(b: Byte)

  predicate Proper(p: Piece) { p.Character? ==> Scalar(p.c) }

  predicate AllProper(ps: seq<Piece>) { forall i :: 0 <= i < |ps| ==> Proper(ps[i]) }

  function Bytes(p: Piece): seq<Byte>
    requires Proper(p)
  {
    if p.Character? then Encode(p.c) else [p.b]
  }

  function AllBytes(ps: seq<Piece>): seq<Byte>
    requires AllProper(ps)
  {
    if ps == [] then [] else Bytes(ps[0]) + AllBytes(ps[1..])
  }

  predicate AllCharacters(ps: seq<Piece>) { forall i :: 0 <= i < |ps| ==> ps[i].Character? }

  /** Every stray byte becomes U+FFFD. */
  function Mended(ps: seq<Piece>): seq<Piece> {
    if ps == [] then [] else [if ps[0].Stray? then Character(0xFFFD) else ps[0]] + Mended(ps[1..])
  }

  /** The pieces of a text. */
  ghost predicate Made(s: seq<Byte>, ps: seq<Piece>)
    decreases |ps|
  {
    && AllProper(ps) && AllBytes(ps) == s
    && (ps != [] ==> Made(s[|Bytes(ps[0])|..], ps[1..]) && (ps[0].Stray? ==> forall c :: Scalar(c) ==> !(Encode(c) <= s)))
  }

  /** How a text begins. */
  lemma FirstPiece(s: seq<Byte>) returns (p: Piece)
    requires s != []
    ensures Proper(p) && |Bytes(p)| == Step(s) && Bytes(p) + s[Step(s)..] == s
    ensures p.Stray? ==> forall c :: Scalar(c) ==> !(Encode(c) <= s)
  {
    hide Second, Tail, Encode, Scalar;
    if Width(s) > 0 {
      var c := Decode(s);
      return Character(c);
    }
    forall c | Scalar(c) ensures !(Encode(c) <= s) {
      if Encode(c) <= s { EncodedHasWidth(c, s); }
    }
    return Stray(s[0]);
  }

  /** Every text has pieces. */
  lemma {:induction false} HasPieces(s: seq<Byte>) returns (ps: seq<Piece>)
    ensures Made(s, ps)
  {
    hide Width, Step, Bytes, Encode, Scalar;
    if s == [] {
      return [];
    }
    var first := FirstPiece(s);
    var rest := HasPieces(s[Step(s)..]);
    ps := [first] + rest;
    assert ps[1..] == rest && ps[0] == first;
    assert s[|Bytes(first)|..] == s[Step(s)..];
  }

  lemma ReplacementEncodes()
    ensures Scalar(0xFFFD) && REPLACEMENT == Encode(0xFFFD)
  {
  }

  /** They are the only ones: replacing puts U+FFFD for each stray byte, and well-formed
      text is text without stray bytes. */
  lemma {:induction false} PiecesTell(s: seq<Byte>, ps: seq<Piece>)
    requires Made(s, ps)
    ensures AllProper(Mended(ps)) && Replaced(s) == AllBytes(Mended(ps))
    ensures Valid(s) <==> AllCharacters(ps)
    decreases |ps|
  {
    hide Width, Encode, Scalar;
    ReplacementEncodes();
    if ps != [] {
      var first := ps[0];
      PiecesTell(s[|Bytes(first)|..], ps[1..]);
      assert Bytes(first) <= s;
      if first.Character? {
        EncodedHasWidth(first.c, s);
        assert s[..Width(s)] == Encode(first.c);
        assert forall i :: 0 < i < |ps| ==> ps[i] == ps[1..][i-1];
      } else {
        StrayIsMalformed(s);
        assert !ps[0].Character?;
      }
      assert Mended(ps)[1..] == Mended(ps[1..]);
    }
  }

  /** Well-formed text is exactly the encoding of some scalar values. */
  lemma ValidIsEncoding(s: seq<Byte>)
    ensures Valid(s) <==> exists ps: seq<Piece> :: AllProper(ps) && AllCharacters(ps) && AllBytes(ps) == s
  {
    var ps := HasPieces(s);
    PiecesTell(s, ps);
    forall qs: seq<Piece> | AllProper(qs) && AllCharacters(qs) && AllBytes(qs) == s ensures Valid(s) {
      CharactersArePieces(qs);
      PiecesTell(s, qs);
    }
  }

  lemma {:induction false} CharactersArePieces(ps: seq<Piece>)
    requires AllProper(ps) && AllCharacters(ps)
    ensures Made(AllBytes(ps), ps)
  {
    if ps != [] {
      CharactersArePieces(ps[1..]);
      assert AllBytes(ps)[|Bytes(ps[0])|..] == AllBytes(ps[1..]);
    }
  }

  // ---- the result

  /** The result is well formed, within the limit, and the front of the full
      replacement; the flag says whether source bytes were left out. */
  lemma {:induction false} BoundedIsRight(s: seq<Byte>, limit: nat)
    ensures var r := Bounded(s, limit);
      && Valid(r.text) && |r.text| <= limit
      && r.text <= Replaced(s)
      && (r.truncated <==> Consumed(s, limit) < |s|)
      && (r.truncated <==> |Replaced(s)| > limit)
      && (!r.truncated ==> r.text == Replaced(s))
  {
    if s != [] && |Unit(s)| <= limit {
      var rest := s[Step(s)..];
      BoundedIsRight(rest, limit - |Unit(s)|);
      ValidAppend(s, Bounded(rest, limit - |Unit(s)|).text);
    }
  }

  lemma ReplacedFront(s: seq<Byte>, k: nat)
    requires s != [] && Step(s) <= k <= |s|
    ensures Replaced(s[..k]) == Unit(s) + Replaced(s[Step(s)..][..k - Step(s)])
  {
    hide Width;
    UnitOfFront(s, k);
    assert s[..k][Step(s)..] == s[Step(s)..][..k - Step(s)];
  }

  /** It is cut between units, as late as possible: the consumed source bytes alone
      are replaced to exactly the result, and one more unit does not fit. */
  lemma {:induction false} CutAsLateAsPossible(s: seq<Byte>, limit: nat)
    ensures Replaced(s[..Consumed(s, limit)]) == Bounded(s, limit).text
    ensures Bounded(s, limit).truncated ==>
              Consumed(s, limit) < |s| && |Bounded(s, limit).text| + |Unit(s[Consumed(s, limit)..])| > limit
  {
    hide Second, Tail, Width, Step, Unit;
    if s == [] || |Unit(s)| > limit {
      assert s[0..] == s;
    } else {
      var step, room := Step(s), limit - |Unit(s)|;
      var rest := s[step..];
      CutAsLateAsPossible(rest, room);
      var n := Consumed(rest, room);
      ReplacedFront(s, step + n);
      assert s[step + n..] == rest[n..];
    }
  }

  /** A valid front of at most limit bytes, cut at the limit if the text is longer,
      is what the replacing loop would have produced. */
  lemma {:induction false} FastPathAgrees(s: seq<Byte>, n: nat)
    requires n <= |s| && Valid(s[..n])
    ensures Bounded(s, n) == Normal(s[..n], n < |s|)
    decreases n
  {
    hide Second, Tail, Width;
    if n > 0 {
      var w := FrontUnit(s, n);
      FastPathAgrees(s[w..], n - w);
      assert s[..w] + s[w..][..n - w] == s[..n];
    }
  }

  /** A valid front begins with a character that the whole text begins with too. */
  lemma FrontUnit(s: seq<Byte>, n: nat) returns (w: nat)
    requires 0 < n <= |s| && Valid(s[..n])
    ensures 0 < w <= n && Width(s) == w && Step(s) == w && Unit(s) == s[..w] && |Unit(s)| == w && Valid(s[w..][..n - w])
  {
    w := Width(s[..n]);
    WidthOfPrefix(s[..n], s);
    assert s[..n][w..] == s[w..][..n - w];
  }

  /** Well-formed text within the limit is left as it is. */
  lemma {:induction false} ValidIsFixed(s: seq<Byte>, limit: nat)
    requires Valid(s) && |s| <= limit
    ensures Bounded(s, limit) == Normal(s, false)
  {
    hide Width;
    if s != [] {
      var w := Width(s);
      ValidIsFixed(s[w..], limit - w);
      assert s[..w] + s[w..] == s;
    }
  }

  /** The fast path: when the front that fits is well formed, copying it is what the
      replacing loop would have done. */
  lemma CopyingAgrees(s: seq<Byte>, limit: nat)
    ensures var n := if |s| > limit then limit else |s|;
      Valid(s[..n]) ==> Bounded(s, limit) == Normal(s[..n], n < |s|)
  {
    if |s| > limit {
      if Valid(s[..limit]) { FastPathAgrees(s, limit); }
    } else {
      assert s[..|s|] == s;
      if Valid(s) { ValidIsFixed(s, limit); }
    }
  }

  /** Normalising twice changes nothing. */
  lemma Idempotent(s: seq<Byte>, limit: nat)
    ensures Bounded(Bounded(s, limit).text, limit) == Normal(Bounded(s, limit).text, false)
  {
    BoundedIsRight(s, limit);
    ValidIsFixed(Bounded(s, limit).text, limit);
  }

  /** For well-formed text the result is its longest well-formed front that fits. */
  lemma {:induction false} LongestValidFront(s: seq<Byte>, limit: nat, k: nat)
    requires Valid(s) && k <= |s| && k <= limit && Valid(s[..k])
    ensures Bounded(s, limit).text <= s && k <= |Bounded(s, limit).text|
  {
    hide Second, Tail, Width;
    if s != [] && Width(s) <= limit {
      var w := Width(s);
      assert s == s[..w] + s[w..];
      if k > 0 { var v := FrontUnit(s, k); }
      assert k == 0 ==> s[w..][..0] == [];
      LongestValidFront(s[w..], limit - w, if k == 0 then 0 else k - w);
    } else if s != [] && k > 0 {
      var w := FrontUnit(s, k);
    }
  }

  // ---- the two functions of the source

  /** normalizeBoundedUTF8: empty text, no room, the fast path, or the loop. */
  method NormalizeBounded(value: seq<Byte>, maxBytes: int) returns (text: seq<Byte>, truncated: bool)
    ensures Normal(text, truncated) == Bounded(value, maxBytes)
  {
    if value == [] {
      return [], false;
    }
    if maxBytes <= 0 {
      return [], true;
    }
    var prefixBytes := |value|;
    if prefixBytes > maxBytes {
      prefixBytes := maxBytes;
    }
    var prefix := value[..prefixBytes];
    if Valid(prefix) {
      CopyingAgrees(value, maxBytes);
      return prefix, prefixBytes < |value|;
    }
    text, truncated := ReplaceMalformed(value, maxBytes);
  }

  function After(text: seq<Byte>, rest: Normal): Normal { Normal(text + rest.text, rest.truncated) }

  /** What is still to come after text has been written. */
  predicate Remaining(goal: Normal, text: seq<Byte>, left: seq<Byte>, maxBytes: int) {
    goal == After(text, Bounded(left, maxBytes - |text|))
  }

  /** One turn of the loop moves one unit from the source to the text. */
  lemma LoopStep(goal: Normal, text: seq<Byte>, left: seq<Byte>, maxBytes: int)
    requires left != [] && |text| + |Unit(left)| <= maxBytes && Remaining(goal, text, left, maxBytes)
    ensures Remaining(goal, text + Unit(left), left[Step(left)..], maxBytes)
  {
  }

  lemma LoopStart(value: seq<Byte>, maxBytes: int)
    ensures Remaining(Bounded(value, maxBytes), [], value, maxBytes)
  {
    var whole := Bounded(value, maxBytes);
    assert [] + whole.text == whole.text;
  }

  lemma LoopEnd(goal: Normal, text: seq<Byte>, left: seq<Byte>, maxBytes: int)
    requires Remaining(goal, text, left, maxBytes) && (left == [] || |text| + |Unit(left)| > maxBytes)
    ensures goal == Normal(text, left != [])
  {
    assert text + [] == text;
  }

  method ReplaceMalformed(value: seq<Byte>, maxBytes: int) returns (text: seq<Byte>, truncated: bool)
    ensures Normal(text, truncated) == Bounded(value, maxBytes)
  {
    hide Second, Tail, Width, Remaining;
    text := [];
    var offset := 0;
    ghost var goal, left := Bounded(value, maxBytes), value;
    LoopStart(value, maxBytes);
    while offset < |value|
      invariant 0 <= offset <= |value| && left == value[offset..]
      invariant Remaining(goal, text, left, maxBytes)
    {
      var sourceBytes := Width(value[offset..]);
      var malformed := sourceBytes == 0;
      if malformed {
        sourceBytes := 1;
      }
      var outputBytes := if malformed then |REPLACEMENT| else sourceBytes;
      var unit := if malformed then REPLACEMENT else value[offset..offset + sourceBytes];
      assert unit == Unit(left) && sourceBytes == Step(left) && outputBytes == |unit|;
      if |text| > maxBytes - outputBytes {
        LoopEnd(goal, text, left, maxBytes);
        return text, true;
      }
      LoopStep(goal, text, left, maxBytes);
      text := text + unit;
      offset := offset + sourceBytes;
      left := left[sourceBytes..];
    }
    LoopEnd(goal, text, left, maxBytes);
    return text, false;
  }

  /** NormalizeText, with the retained-text limit. */
  method NormalizeText(value: seq<Byte>) returns (text: seq<Byte>, truncated: bool)
    ensures Normal(text, truncated) == Bounded(value, MAX_RETAINED_TEXT_BYTES)
  {
    if value == [] {
      return [], false;
    }
    var prefixBytes := |value|;
    if prefixBytes > MAX_RETAINED_TEXT_BYTES {
      prefixBytes := MAX_RETAINED_TEXT_BYTES;
    }
    var prefix := value[..prefixBytes];
    if Valid(prefix) {
      CopyingAgrees(value, MAX_RETAINED_TEXT_BYTES);
      return prefix, prefixBytes < |value|;
    }
    text, truncated := ReplaceMalformed(value, MAX_RETAINED_TEXT_BYTES);
  }
}
