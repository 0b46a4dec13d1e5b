/**
 * The base64url codec of the token checker (section 5 of RFC 4648, without
 * padding). Text is a sequence of characters that each stand for one byte.
 */
module Base64 {
  import opened Wrappers

  const UPPER: string := "ABCDEFGHIJKLMNOPQRSTUVWXYZ"
  const LOWER: string := "abcdefghijklmnopqrstuvwxyz"
  const DIGITS: string := "0123456789"
  const CHARSET: string := UPPER + LOWER + DIGITS + "+/"

  datatype CodecError = InvalidLength | InvalidCharacter

  type Octets = seq<bv8>

  // ---- The alphabet ------------------------------------------------------------------

  function Position(s: string, c: char): (r: Option<nat>)
    ensures r.None? <==> c !in s
    ensures r.Some? ==> r.value < |s| && s[r.value] == c && c !in s[..r.value]
  {
    if s == "" then None
    else if s[0] == c then Some(0)
    else
      var rest := Position(s[1..], c);
      if rest.Some? then Some(rest.value + 1) else None
  }

  /** The value of a character; padding counts as zero wherever it stands. */
  function CharToVal(c: char): Option<bv8> {
    if c == '=' then Some(0)
    else
      var p := Position(CHARSET, c);
      if p.Some? && p.value < 64 then Some(p.value as bv8) else None
  }

  lemma PaddingIsZero()
    ensures CharToVal('=') == Some(0)
  {
  }

  function CharOf(v: bv8): char {
    CHARSET[(v & 0x3f) as int]
  }

  /** The letters and digits stand in their character order. */
  lemma InOrder(i: nat)
    ensures i < 26 ==> UPPER[i] as int == 'A' as int + i && LOWER[i] as int == 'a' as int + i
    ensures i < 10 ==> DIGITS[i] as int == '0' as int + i
  {
    assert i < 10 ==> i == 0 || i == 1 || i == 2 || i == 3 || i == 4 || i == 5 || i == 6 || i == 7 || i == 8 || i == 9;
    assert i < 26 ==> i < 10 || i == 10 || i == 11 || i == 12 || i == 13 || i == 14 || i == 15 || i == 16 || i == 17 || i == 18 || i == 19 || i == 20 || i == 21 || i == 22 || i == 23 || i == 24 || i == 25;
  }

  lemma CharsetIsRanges(i: nat)
    requires i < 64
    ensures CHARSET[i] as int ==
              if i < 26 then 'A' as int + i
              else if i < 52 then 'a' as int + i - 26
              else if i < 62 then '0' as int + i - 52
              else if i == 62 then '+' as int else '/' as int
  {
    InOrder(if i < 26 then i else if i < 52 then i - 26 else if i < 62 then i - 52 else 0);
  }

  lemma CharsetHasNoRepeats(i: nat, j: nat)
    requires i < 64 && j < 64 && CHARSET[i] == CHARSET[j]
    ensures i == j
  {
    CharsetIsRanges(i);
    CharsetIsRanges(j);
  }

  /** Reading a symbol gives the value it was written for. */
  lemma SymbolRoundTrip(v: bv8)
    requires v < 64
    ensures CharToVal(CharOf(v)) == Some(v)
    ensures CharOf(v) != '=' && CharOf(v) != '-' && CharOf(v) != '_'
  {
    assert v & 0x3f == v;
    CharsetIsRanges(v as int);
    assert CHARSET[v as int] in CHARSET;
    var p := Position(CHARSET, CharOf(v)).value;
    CharsetHasNoRepeats(p, v as int);
  }

  // ---- Encoding ----------------------------------------------------------------------

  /** The octet at `k`, zero beyond the end. */
  function Octet(bs: Octets, k: nat): bv8 {
    if k < |bs| then bs[k] else 0
  }

  function Sextet0(a: bv8): bv8 { a >> 2 }
  function Sextet1(a: bv8, b: bv8): bv8 { ((a & 0x03) << 4) | (b >> 4) }
  function Sextet2(b: bv8, c: bv8): bv8 { ((b & 0x0f) << 2) | (c >> 6) }
  function Sextet3(c: bv8): bv8 { c & 0x3f }

  /** The symbols for the first three octets: two, three, or four of them. */
  function FirstSymbols(bs: Octets): string
    requires bs != []
  {
    var a, b, c := bs[0], Octet(bs, 1), Octet(bs, 2);
    [CharOf(Sextet0(a)), CharOf(Sextet1(a, b))]
    + (if |bs| > 1 then [CharOf(Sextet2(b, c))] else [])
    + (if |bs| > 2 then [CharOf(Sextet3(c))] else [])
  }

  function From(bs: Octets, i: nat): Octets {
    if i < |bs| then bs[i..] else []
  }

  function StdEncode(bs: Octets): string
    decreases |bs|
  {
    if bs == [] then "" else FirstSymbols(bs) + StdEncode(From(bs, 3))
  }

  /** `s` with every `from` turned into `to`. */
  function Replace(s: string, from: char, to: char): (r: string)
    ensures |r| == |s| && forall i :: 0 <= i < |s| ==> r[i] == if s[i] == from then to else s[i]
  {
    if s == "" then "" else Replace(s[..|s| - 1], from, to) + [if s[|s| - 1] == from then to else s[|s| - 1]]
  }

  function ToUrl(s: string): string {
    Replace(Replace(s, '+', '-'), '/', '_')
  }

  function ToStd(s: string): string {
    Replace(Replace(s, '-', '+'), '_', '/')
  }

  function Encoded(bs: Octets): string {
    ToUrl(StdEncode(bs))
  }

  lemma Regroup<T>(a: seq<T>, b: seq<T>, c: seq<T>)
    ensures a + (b + c) == (a + b) + c
  {
  }

  lemma EncodeAt(bs: Octets, i: nat)
    requires i < |bs|
    ensures StdEncode(From(bs, i)) == FirstSymbols(From(bs, i)) + StdEncode(From(bs, i + 3))
  {
    hide FirstSymbols;
    assert From(From(bs, i), 3) == From(bs, i + 3);
  }

  lemma EncodeNothing(bs: Octets, i: nat, r: string)
    requires i >= |bs|
    ensures r + StdEncode(From(bs, i)) == r
  {
  }

  lemma SymbolsAt(bs: Octets, i: nat)
    requires i < |bs|
    ensures var a, b, c := bs[i], Octet(bs, i + 1), Octet(bs, i + 2);
      FirstSymbols(From(bs, i)) ==
        [CharOf(Sextet0(a)), CharOf(Sextet1(a, b))]
        + (if i + 1 < |bs| then [CharOf(Sextet2(b, c))] else [])
        + (if i + 2 < |bs| then [CharOf(Sextet3(c))] else [])
  {
    hide CharOf, Sextet0, Sextet1, Sextet2, Sextet3;
  }

  method Encode(input: Octets) returns (r: string)
    ensures r == Encoded(input)
  {
    hide CharOf, Sextet0, Sextet1, Sextet2, Sextet3, FirstSymbols, StdEncode;
    var i := 0;
    r := "";
    assert From(input, 0) == input;
    while i < |input|
      invariant r + StdEncode(From(input, i)) == StdEncode(input)
    {
      var a := input[i];
      var b := if i + 1 < |input| then input[i + 1] else 0;
      var c := if i + 2 < |input| then input[i + 2] else 0;
      var symbols := [CharOf(Sextet0(a)), CharOf(Sextet1(a, b))];
      if i + 1 < |input| {
        symbols := symbols + [CharOf(Sextet2(b, c))];
      }
      if i + 2 < |input| {
        symbols := symbols + [CharOf(Sextet3(c))];
      }
      SymbolsAt(input, i);
      assert symbols == FirstSymbols(From(input, i));
      EncodeAt(input, i);
      Regroup(r, symbols, StdEncode(From(input, i + 3)));
      r := r + symbols;
      i := i + 3;
    }
    assert r == StdEncode(input) by {
      EncodeNothing(input, i, r);
    }
    r := Replace(Replace(r, '+', '-'), '/', '_');
  }

  // ---- Decoding ----------------------------------------------------------------------

  function Octet0(a: bv8, b: bv8): bv8 { (a << 2) | (b >> 4) }
  function Octet1(b: bv8, c: bv8): bv8 { (b << 4) | (c >> 2) }
  function Octet2(c: bv8, d: bv8): bv8 { (c << 6) | d }

  /** The octets of one group of four characters, if all are readable. */
  function GroupOctets(g: string): Result<Octets, CodecError>
    requires |g| == 4
  {
    var a, b, c, d := CharToVal(g[0]), CharToVal(g[1]), CharToVal(g[2]), CharToVal(g[3]);
    if a.None? || b.None? || c.None? || d.None? then Err(InvalidCharacter)
    else Ok([Octet0(a.value, b.value)]
            + (if g[2] != '=' then [Octet1(b.value, c.value)] else [])
            + (if g[3] != '=' then [Octet2(c.value, d.value)] else []))
  }

  function StdDecode(s: string): Result<Octets, CodecError>
    decreases |s|
  {
    if s == "" then Ok([])
    else if |s| < 4 then Err(InvalidLength)
    else
      var first := GroupOctets(s[..4]);
      if first.Err? then first else Prepend(first.value, StdDecode(s[4..]))
  }

  function Prepend(head: Octets, r: Result<Octets, CodecError>): Result<Octets, CodecError> {
    if r.Err? then r else Ok(head + r.value)
  }

  lemma PrependTwice(a: Octets, b: Octets, r: Result<Octets, CodecError>)
    ensures Prepend(a, Prepend(b, r)) == Prepend(a + b, r) && Prepend([], r) == r && Prepend(a, Ok([])) == Ok(a)
  {
    assert a + [] == a;
    if r.Ok? {
      Regroup(a, b, r.value);
      assert [] + r.value == r.value;
    }
  }

  /** How many characters stand beyond the last whole group of four. */
  function Excess(s: string): (r: nat)
    ensures r < 4
  {
    |s| % 4
  }

  lemma ExcessIs(s: string, n: nat, e: nat)
    requires |s| == 4 * n + e && e < 4
    ensures Excess(s) == e
  {
  }

  lemma WholeGroups(s: string) returns (n: nat)
    ensures |s| == 4 * n + Excess(s)
  {
    n := |s| / 4;
  }

  function Pad(s: string): string {
    if Excess(s) == 2 then s + "==" else if Excess(s) == 3 then s + "=" else s
  }

  function Decoded(s: string): Result<Octets, CodecError> {
    if Excess(s) == 1 then Err(InvalidLength) else StdDecode(ToStd(Pad(s)))
  }

  lemma DecodeNothing(s: string)
    requires |s| == 0
    ensures StdDecode(s) == Ok([])
  {
  }

  lemma DecodeAt(s: string, i: nat)
    requires i + 4 <= |s|
    ensures var g := GroupOctets(s[i..i + 4]);
      StdDecode(s[i..]) == if g.Err? then g else Prepend(g.value, StdDecode(s[i + 4..]))
  {
    hide GroupOctets;
    assert s[i..][..4] == s[i..i + 4] && s[i..][4..] == s[i + 4..];
  }

  method StdDecoder(input: string) returns (r: Result<Octets, CodecError>)
    ensures r == if Excess(input) != 0 then Err(InvalidLength) else StdDecode(input)
  {
    hide Excess, GroupOctets, StdDecode;
    if Excess(input) != 0 {
      return Err(InvalidLength);
    }
    var i, result: Octets := 0, [];
    ghost var k := 0;
    ghost var n := WholeGroups(input);
    assert input[0..] == input;
    PrependTwice([], [], StdDecode(input));
    while i < |input|
      invariant i == 4 * k <= |input| == 4 * n
      invariant StdDecode(input) == Prepend(result, StdDecode(input[i..]))
    {
      var chunk := input[i..i + 4];
      DecodeAt(input, i);
      var octets := GroupOctets(chunk);
      if octets.Err? {
        return octets;
      }
      PrependTwice(result, octets.value, StdDecode(input[i + 4..]));
      result := result + octets.value;
      i, k := i + 4, k + 1;
    }
    DecodeNothing(input[i..]);
    PrependTwice(result, [], Ok([]));
    return Ok(result);
  }

  method Decode(input: string) returns (r: Result<Octets, CodecError>)
    ensures r == Decoded(input)
  {
    hide StdDecode, Excess;
    var padded;
    match Excess(input) {
      case 2 => padded := input + "==";
      case 3 => padded := input + "=";
      case 0 => padded := input;
      case _ => return Err(InvalidLength);
    }
    ghost var n := PadIsWhole(input);
    var standard := Replace(Replace(padded, '-', '+'), '_', '/');
    ExcessIs(standard, n, 0);
    r := StdDecoder(standard);
  }

  // ---- Round trip ---------------------------------------------------------------------

  lemma SextetsPackBack(a: bv8, b: bv8, c: bv8)
    ensures Octet0(Sextet0(a), Sextet1(a, b)) == a
    ensures Octet1(Sextet1(a, b), Sextet2(b, c)) == b
    ensures Octet2(Sextet2(b, c), Sextet3(c)) == c
    ensures Sextet0(a) < 64 && Sextet1(a, b) < 64 && Sextet2(b, c) < 64 && Sextet3(c) < 64
  {
  }

  function FirstThree(bs: Octets): Octets {
    if |bs| > 3 then bs[..3] else bs
  }

  /** One group, padded, decodes to the octets it was made from. */
  lemma GroupRoundTrip(bs: Octets)
    requires bs != []
    ensures |Pad(FirstSymbols(bs))| == 4 && GroupOctets(Pad(FirstSymbols(bs))) == Ok(FirstThree(bs))
  {
    hide CharOf, CharToVal, Sextet0, Sextet1, Sextet2, Sextet3, Octet0, Octet1, Octet2;
    var a, b, c := bs[0], Octet(bs, 1), Octet(bs, 2);
    SextetsPackBack(a, b, c);
    SymbolRoundTrip(Sextet0(a));
    SymbolRoundTrip(Sextet1(a, b));
    SymbolRoundTrip(Sextet2(b, c));
    SymbolRoundTrip(Sextet3(c));
    PaddingIsZero();
    var g := Pad(FirstSymbols(bs));
    if |bs| == 1 {
      assert g[2] == '=' && g[3] == '=';
      assert GroupOctets(g).value == [a] == bs;
    } else if |bs| == 2 {
      assert GroupOctets(g).value == [a, b] == bs;
    } else {
      assert GroupOctets(g).value == [a, b, c] == FirstThree(bs);
    }
  }

  /** A whole group in front does not change the padding. */
  lemma PadTail(first: string, rest: string)
    requires |first| == 4
    ensures Pad(first + rest) == first + Pad(rest)
    ensures (first + Pad(rest))[..4] == first && (first + Pad(rest))[4..] == Pad(rest)
  {
    var n := WholeGroups(rest);
    ExcessIs(first + rest, n + 1, Excess(rest));
  }

  lemma {:induction false} StdRoundTrip(bs: Octets)
    ensures StdDecode(Pad(StdEncode(bs))) == Ok(bs)
    decreases |bs|
  {
    hide GroupOctets, FirstSymbols, Pad;
    if bs == [] {
      assert Pad("") == "" by { PadNothing(); }
    } else {
      var first, rest := FirstSymbols(bs), StdEncode(From(bs, 3));
      GroupRoundTrip(bs);
      SymbolCount(bs);
      if |bs| <= 3 {
        assert first + "" == first;
        var s := Pad(first);
        assert s[..4] == s && s[4..] == "";
        assert StdDecode(s) == Prepend(bs, Ok([]));
        assert bs + [] == bs;
      } else {
        StdRoundTrip(From(bs, 3));
        PadTail(first, rest);
        PadWhole(first);
        assert bs == FirstThree(bs) + From(bs, 3);
      }
    }
  }

  lemma PadNothing()
    ensures Pad("") == ""
  {
  }

  lemma PadWhole(s: string)
    requires |s| == 4
    ensures Pad(s) == s
  {
  }

  lemma {:induction false} EncodedLength(bs: Octets, n: nat)
    requires 3 * n <= |bs| < 3 * n + 3
    ensures |StdEncode(bs)| == if |bs| == 3 * n then 4 * n else 4 * n + 1 + |bs| - 3 * n
    decreases |bs|
  {
    hide FirstSymbols;
    if bs != [] {
      SymbolCount(bs);
      if n > 0 {
        EncodedLength(From(bs, 3), n - 1);
      }
    }
  }

  lemma SymbolCount(bs: Octets)
    requires bs != []
    ensures |FirstSymbols(bs)| == if |bs| > 2 then 4 else |bs| + 1
  {
  }

  /** No symbol is padding or already one of the two URL characters. */
  predicate Plain(s: string) {
    forall i :: 0 <= i < |s| ==> s[i] != '-' && s[i] != '_' && s[i] != '='
  }

  lemma FirstSymbolsArePlain(bs: Octets)
    requires bs != []
    ensures Plain(FirstSymbols(bs))
  {
    hide CharOf, Sextet0, Sextet1, Sextet2, Sextet3;
    var a, b, c := bs[0], Octet(bs, 1), Octet(bs, 2);
    SextetsPackBack(a, b, c);
    SymbolRoundTrip(Sextet0(a));
    SymbolRoundTrip(Sextet1(a, b));
    SymbolRoundTrip(Sextet2(b, c));
    SymbolRoundTrip(Sextet3(c));
  }

  lemma {:induction false} StdIsPlain(bs: Octets)
    ensures Plain(StdEncode(bs))
    decreases |bs|
  {
    hide FirstSymbols;
    if bs != [] {
      StdIsPlain(From(bs, 3));
      FirstSymbolsArePlain(bs);
    }
  }

  lemma LengthIsLegal(bs: Octets)
    ensures Excess(StdEncode(bs)) != 1
  {
    hide StdEncode, Excess;
    var n := |bs| / 3;
    EncodedLength(bs, n);
    if |bs| == 3 * n {
      ExcessIs(StdEncode(bs), n, 0);
    } else {
      ExcessIs(StdEncode(bs), n, 1 + |bs| - 3 * n);
    }
  }

  lemma SameLengthSameExcess(s: string, t: string)
    requires |s| == |t|
    ensures Excess(s) == Excess(t)
  {
  }

  /** Padding and translation commute. */
  lemma PadThenTranslate(s: string)
    ensures ToStd(Pad(s)) == Pad(ToStd(s)) && Excess(ToStd(s)) == Excess(s)
  {
    SameLengthSameExcess(s, ToStd(s));
  }

  lemma PlainTranslatesBack(s: string)
    requires Plain(s)
    ensures ToStd(ToUrl(s)) == s
  {
    hide Replace;
  }

  /** Decoding the unpadded encoding of any octets returns those octets. */
  lemma RoundTrip(bs: Octets)
    ensures Decoded(Encoded(bs)) == Ok(bs)
  {
    hide StdEncode, StdDecode, Excess, ToUrl, ToStd, Plain, Pad;
    var s, u := StdEncode(bs), Encoded(bs);
    StdRoundTrip(bs);
    StdIsPlain(bs);
    LengthIsLegal(bs);
    PlainTranslatesBack(s);
    PadThenTranslate(u);
  }

  // ---- What is accepted ---------------------------------------------------------------

  predicate Readable(c: char) {
    c in CHARSET || c == '-' || c == '_' || c == '='
  }

  lemma ReadableExactly(c: char)
    ensures CharToVal(if c == '-' then '+' else if c == '_' then '/' else c).Some? <==> Readable(c)
  {
    assert CHARSET[62] == '+' && CHARSET[63] == '/';
  }

  predicate AllReadable(s: string) {
    forall i :: 0 <= i < |s| ==> CharToVal(s[i]).Some?
  }

  lemma GroupReadable(g: string)
    requires |g| == 4
    ensures GroupOctets(g).Ok? <==> AllReadable(g)
  {
    hide CharToVal;
  }

  lemma {:induction false} StdAcceptsExactly(s: string, n: nat)
    requires |s| == 4 * n
    ensures StdDecode(s).Ok? <==> AllReadable(s)
    decreases n
  {
    hide CharToVal, GroupOctets;
    if n > 0 {
      GroupReadable(s[..4]);
      StdAcceptsExactly(s[4..], n - 1);
      assert s == s[..4] + s[4..];
    }
  }

  lemma PadIsWhole(s: string) returns (n: nat)
    requires Excess(s) != 1
    ensures |Pad(s)| == 4 * n
  {
    hide Excess;
    n := WholeGroups(s);
    if Excess(s) != 0 {
      n := n + 1;
    }
  }

  /** A text is accepted exactly when no lone character is left over and each is readable. */
  lemma AcceptedExactly(s: string)
    ensures Decoded(s).Ok? <==> Excess(s) != 1 && forall i :: 0 <= i < |s| ==> Readable(s[i])
  {
    hide CharToVal, StdDecode, Excess, Readable;
    if Excess(s) != 1 {
      var t := ToStd(Pad(s));
      var n := PadIsWhole(s);
      StdAcceptsExactly(t, n);
      PaddingIsZero();
      forall i | 0 <= i < |s| ensures CharToVal(t[i]).Some? <==> Readable(s[i]) {
        ReadableExactly(s[i]);
      }
    }
  }

  // ---- The definition by bits ---------------------------------------------------------

  /** The URL-safe alphabet of RFC 4648, table 2. */
  const URL_CHARSET: string := UPPER + LOWER + DIGITS + "-_"

  /** Three octets, zero beyond the end, as one group of 24 bits. */
  function Group(bs: Octets, g: nat): bv24 {
    Bits(Octet(bs, 3 * g), Octet(bs, 3 * g + 1), Octet(bs, 3 * g + 2))
  }

  function Bits(a: bv8, b: bv8, c: bv8): bv24 {
    ((a as bv24) << 16) | ((b as bv24) << 8) | (c as bv24)
  }

  /** The `k`-th six bits of a group, from the left. */
  function Sextet(group: bv24, k: nat): bv24
    requires k < 4
  {
    (if k == 0 then group >> 18 else if k == 1 then group >> 12 else if k == 2 then group >> 6 else group) & 0x3f
  }

  /** The value the encoder looks up for its `k`-th symbol. */
  function Looked(a: bv8, b: bv8, c: bv8, k: nat): bv8 {
    if k == 0 then Sextet0(a) else if k == 1 then Sextet1(a, b) else if k == 2 then Sextet2(b, c) else Sextet3(c)
  }

  lemma LookedIsSextet(a: bv8, b: bv8, c: bv8, k: nat)
    requires k < 4
    ensures Looked(a, b, c, k) < 64 && Sextet(Bits(a, b, c), k) == Looked(a, b, c, k) as bv24
  {
  }

  lemma SextetIsSmall(g: bv24, k: nat)
    requires k < 4
    ensures Sextet(g, k) < 64
  {
  }

  function UrlSymbol(v: bv24): char
    requires v < 64
  {
    URL_CHARSET[v as int]
  }

  lemma UrlSymbolOf(v: bv8, w: bv24)
    requires v < 64 && w == v as bv24
    ensures UrlSymbol(w) == if CharOf(v) == '+' then '-' else if CharOf(v) == '/' then '_' else CharOf(v)
  {
    assert v & 0x3f == v;
    CharsetIsRanges(v as int);
    assert v as int < 62 ==> CHARSET[v as int] == URL_CHARSET[v as int];
  }

  lemma FirstGroup(bs: Octets, k: nat)
    requires bs != [] && k < |FirstSymbols(bs)|
    ensures k < 4 && Sextet(Group(bs, 0), k) < 64
    ensures ToUrl(FirstSymbols(bs))[k] == UrlSymbol(Sextet(Group(bs, 0), k))
  {
    hide Sextet, Looked, CharOf, UrlSymbol, Bits;
    var a, b, c := bs[0], Octet(bs, 1), Octet(bs, 2);
    assert FirstSymbols(bs)[k] == CharOf(Looked(a, b, c, k)) by { LooksUp(bs, k); }
    LookedIsSextet(a, b, c, k);
    SextetIsSmall(Group(bs, 0), k);
    UrlSymbolOf(Looked(a, b, c, k), Sextet(Group(bs, 0), k));
  }

  lemma LooksUp(bs: Octets, k: nat)
    requires bs != [] && k < |FirstSymbols(bs)|
    ensures FirstSymbols(bs)[k] == CharOf(Looked(bs[0], Octet(bs, 1), Octet(bs, 2), k))
  {
    hide CharOf, Sextet0, Sextet1, Sextet2, Sextet3;
  }

  /**
   * The encoding, symbol by symbol: the `k`-th character of group `g` stands for
   * the `k`-th six bits of the `g`-th three octets.
   */
  lemma {:induction false} SymbolsAreSextets(bs: Octets, g: nat, k: nat)
    requires k < 4 && 4 * g + k < |Encoded(bs)|
    ensures Sextet(Group(bs, g), k) < 64 && Encoded(bs)[4 * g + k] == UrlSymbol(Sextet(Group(bs, g), k))
    decreases g
  {
    hide FirstSymbols, Sextet, UrlSymbol, Bits, Encoded;
    SextetIsSmall(Group(bs, g), k);
    EncodedAt(bs, 4 * g + k);
    if g == 0 {
      FirstGroup(bs, k);
    } else {
      SymbolsAreSextets(From(bs, 3), g - 1, k);
      assert Group(bs, g) == Group(From(bs, 3), g - 1);
    }
  }

  lemma EncodedAt(bs: Octets, i: nat)
    requires i < |Encoded(bs)|
    ensures bs != [] && (i < 4 ==> i < |FirstSymbols(bs)| && Encoded(bs)[i] == ToUrl(FirstSymbols(bs))[i])
    ensures i >= 4 ==> i - 4 < |Encoded(From(bs, 3))| && Encoded(bs)[i] == Encoded(From(bs, 3))[i - 4]
  {
    hide FirstSymbols;
    SymbolCount(bs);
    assert |bs| <= 3 ==> StdEncode(From(bs, 3)) == "";
  }

  /** Eight bits an octet, six bits a symbol, rounded up. */
  lemma EncodedLengthExactly(bs: Octets)
    ensures |Encoded(bs)| == (8 * |bs| + 5) / 6
  {
    EncodedLength(bs, |bs| / 3);
  }

  // ---- Canonical texts -----------------------------------------------------------------

  /** The bits of the last symbol that no octet uses are zero. */
  predicate SpareBitsZero(t: string) {
    && (Excess(t) == 2 ==> CharToVal(t[|t| - 1]).Some? && CharToVal(t[|t| - 1]).value & 0x0f == 0)
    && (Excess(t) == 3 ==> CharToVal(t[|t| - 1]).Some? && CharToVal(t[|t| - 1]).value & 0x03 == 0)
  }

  predicate IsSymbol(c: char) {
    c in CHARSET
  }

  predicate AllSymbols(t: string) {
    forall i :: 0 <= i < |t| ==> IsSymbol(t[i])
  }

  lemma AsOctet(p: nat)
    requires p < 64
    ensures (p as bv8) < 64 && ((p as bv8) & 0x3f) as int == p
  {
    assert (p as bv8) & 0x3f == p as bv8;
  }

  lemma NeverPadding(p: nat)
    requires p < 64
    ensures CHARSET[p] != '='
  {
    CharsetIsRanges(p);
  }

  lemma SymbolBack(c: char)
    requires IsSymbol(c)
    ensures c != '=' && CharToVal(c).Some? && CharToVal(c).value < 64 && CharOf(CharToVal(c).value) == c
  {
    hide Position;
    var p := Position(CHARSET, c).value;
    NeverPadding(p);
    AsOctet(p);
  }

  lemma OctetsSplitBack(a: bv8, b: bv8, c: bv8, d: bv8)
    requires a < 64 && b < 64 && c < 64 && d < 64
    ensures Sextet0(Octet0(a, b)) == a && Sextet1(Octet0(a, b), Octet1(b, c)) == b
    ensures Sextet2(Octet1(b, c), Octet2(c, d)) == c && Sextet3(Octet2(c, d)) == d
    ensures Sextet1(Octet0(a, b), 0) == b <==> b & 0x0f == 0
    ensures Sextet2(Octet1(b, c), 0) == c <==> c & 0x03 == 0
  {
  }

  lemma SymbolsOf(x: bv8, y: bv8, z: bv8)
    ensures FirstSymbols([x]) == [CharOf(Sextet0(x)), CharOf(Sextet1(x, 0))]
    ensures FirstSymbols([x, y]) == [CharOf(Sextet0(x)), CharOf(Sextet1(x, y)), CharOf(Sextet2(y, 0))]
    ensures FirstSymbols([x, y, z]) == [CharOf(Sextet0(x)), CharOf(Sextet1(x, y)), CharOf(Sextet2(y, z)), CharOf(Sextet3(z))]
  {
    hide CharOf, Sextet0, Sextet1, Sextet2, Sextet3;
  }

  /** What a readable group decodes to, by how much of it is padding. */
  lemma OctetsOf(g: string, a: bv8, b: bv8, c: bv8, d: bv8)
    requires |g| == 4 && CharToVal(g[0]) == Some(a) && CharToVal(g[1]) == Some(b) && CharToVal(g[2]) == Some(c) && CharToVal(g[3]) == Some(d)
    ensures g[2] != '=' && g[3] != '=' ==> GroupOctets(g) == Ok([Octet0(a, b), Octet1(b, c), Octet2(c, d)])
    ensures g[2] != '=' && g[3] == '=' ==> GroupOctets(g) == Ok([Octet0(a, b), Octet1(b, c)])
    ensures g[2] == '=' && g[3] == '=' ==> GroupOctets(g) == Ok([Octet0(a, b)])
  {
    hide CharToVal, Octet0, Octet1, Octet2;
    assert [Octet0(a, b)] + [Octet1(b, c)] + [Octet2(c, d)] == [Octet0(a, b), Octet1(b, c), Octet2(c, d)];
    assert [Octet0(a, b)] + [Octet1(b, c)] + [] == [Octet0(a, b), Octet1(b, c)];
    assert [Octet0(a, b)] + [] + [] == [Octet0(a, b)];
  }

  /** Two, three, or four symbols as octets that encode to them, unless spare bits are set. */
  predicate Reencodes(t: string, r: Result<Octets, CodecError>, exact: bool) {
    r.Ok? && |r.value| == |t| - 1 && r.value != [] && (FirstSymbols(r.value) == t <==> exact)
  }

  lemma PairReencodes(t: string)
    requires |t| == 2 && AllSymbols(t)
    ensures CharToVal(t[1]).Some? && Reencodes(t, GroupOctets(t + "=="), CharToVal(t[1]).value & 0x0f == 0)
  {
    hide CharOf, CharToVal, Sextet0, Sextet1, Sextet2, Sextet3, Octet0, Octet1, Octet2, FirstSymbols, GroupOctets, IsSymbol;
    PaddingIsZero();
    SymbolBack(t[0]);
    SymbolBack(t[1]);
    var a, b := CharToVal(t[0]).value, CharToVal(t[1]).value;
    OctetsOf(t + "==", a, b, 0, 0);
    OctetsSplitBack(a, b, 0, 0);
    SymbolsOf(Octet0(a, b), 0, 0);
    SextetsPackBack(Octet0(a, b), 0, 0);
    SymbolsDiffer(Sextet1(Octet0(a, b), 0), b);
  }

  lemma TripleReencodes(t: string)
    requires |t| == 3 && AllSymbols(t)
    ensures CharToVal(t[2]).Some? && Reencodes(t, GroupOctets(t + "="), CharToVal(t[2]).value & 0x03 == 0)
  {
    hide CharOf, CharToVal, Sextet0, Sextet1, Sextet2, Sextet3, Octet0, Octet1, Octet2, FirstSymbols, GroupOctets, IsSymbol;
    PaddingIsZero();
    SymbolBack(t[0]);
    SymbolBack(t[1]);
    SymbolBack(t[2]);
    var a, b, c := CharToVal(t[0]).value, CharToVal(t[1]).value, CharToVal(t[2]).value;
    OctetsOf(t + "=", a, b, c, 0);
    OctetsSplitBack(a, b, c, 0);
    SymbolsOf(Octet0(a, b), Octet1(b, c), 0);
    SextetsPackBack(0, Octet1(b, c), 0);
    SymbolsDiffer(Sextet2(Octet1(b, c), 0), c);
  }

  lemma QuadReencodes(t: string)
    requires |t| == 4 && AllSymbols(t)
    ensures Reencodes(t, GroupOctets(t), true)
  {
    hide CharOf, CharToVal, Sextet0, Sextet1, Sextet2, Sextet3, Octet0, Octet1, Octet2, FirstSymbols, GroupOctets, IsSymbol;
    SymbolBack(t[0]);
    SymbolBack(t[1]);
    SymbolBack(t[2]);
    SymbolBack(t[3]);
    var a, b, c, d := CharToVal(t[0]).value, CharToVal(t[1]).value, CharToVal(t[2]).value, CharToVal(t[3]).value;
    OctetsOf(t, a, b, c, d);
    OctetsSplitBack(a, b, c, d);
    SymbolsOf(Octet0(a, b), Octet1(b, c), Octet2(c, d));
  }

  /** Different values are written as different symbols. */
  lemma SymbolsDiffer(v: bv8, w: bv8)
    requires v < 64 && w < 64
    ensures CharOf(v) == CharOf(w) <==> v == w
  {
    hide CharOf, CharToVal;
    SymbolRoundTrip(v);
    SymbolRoundTrip(w);
  }

  /** The last one to four symbols. */
  lemma TailReencodes(t: string)
    requires 2 <= |t| <= 4 && AllSymbols(t)
    ensures Reencodes(t, GroupOctets(Pad(t)), SpareBitsZero(t)) && |Pad(t)| == 4
  {
    hide CharToVal, FirstSymbols, GroupOctets, IsSymbol, Excess, Reencodes;
    if |t| == 2 {
      ExcessIs(t, 0, 2);
      PairReencodes(t);
    } else if |t| == 3 {
      ExcessIs(t, 0, 3);
      TripleReencodes(t);
    } else {
      ExcessIs(t, 1, 0);
      QuadReencodes(t);
    }
  }

  lemma DecodeOne(g: string)
    requires |g| == 4
    ensures StdDecode(g) == GroupOctets(g)
  {
    hide GroupOctets;
    assert g[..4] == g && g[4..] == "";
    var r := GroupOctets(g);
    if r.Ok? {
      assert r.value + [] == r.value;
    }
  }

  lemma EncodeOne(bs: Octets)
    requires 0 < |bs| <= 3
    ensures StdEncode(bs) == FirstSymbols(bs)
  {
    hide FirstSymbols;
    assert FirstSymbols(bs) + "" == FirstSymbols(bs);
  }

  /** What an unpadded standard text decodes to encodes back to it exactly when its spare bits are zero. */
  lemma {:induction false} StdReencodes(t: string, n: nat)
    requires AllSymbols(t) && |t| == 4 * n + Excess(t) && Excess(t) != 1
    ensures StdDecode(Pad(t)).Ok? && (StdEncode(StdDecode(Pad(t)).value) == t <==> SpareBitsZero(t))
    decreases |t|
  {
    hide CharToVal, FirstSymbols, GroupOctets, IsSymbol, Excess;
    if t == "" {
      ExcessIs(t, 0, 0);
    } else if |t| <= 4 {
      TailReencodes(t);
      DecodeOne(Pad(t));
      EncodeOne(GroupOctets(Pad(t)).value);
    } else {
      var first, rest := t[..4], t[4..];
      assert t == first + rest;
      ExcessIs(rest, n - 1, Excess(t));
      StdReencodes(rest, n - 1);
      QuadReencodes(first);
      PadTail(first, rest);
      FrontReencodes(first, GroupOctets(first).value, rest, StdDecode(Pad(rest)).value);
    }
  }

  lemma FrontReencodes(first: string, three: Octets, rest: string, more: Octets)
    requires |three| == 3 && FirstSymbols(three) == first && |first| == 4
    ensures StdEncode(three + more) == first + StdEncode(more)
    ensures StdEncode(three + more) == first + rest <==> StdEncode(more) == rest
  {
    var bs := three + more;
    assert From(bs, 3) == more;
    assert FirstSymbols(bs) == FirstSymbols(three);
    assert (first + StdEncode(more))[4..] == StdEncode(more) && (first + rest)[4..] == rest;
  }

  /** A character of the URL-safe alphabet. */
  predicate IsUrlSymbol(c: char) {
    c == '-' || c == '_' || (IsSymbol(c) && c != '+' && c != '/')
  }

  /** Only URL-safe symbols, none left over alone, and no stray bits at the end. */
  predicate Canonical(s: string) {
    (forall i :: 0 <= i < |s| ==> IsUrlSymbol(s[i])) && Excess(s) != 1 && SpareBitsZero(ToStd(s))
  }

  lemma CharOfIsSymbol(v: bv8)
    ensures IsSymbol(CharOf(v))
  {
  }

  lemma {:induction false} StdIsSymbols(bs: Octets)
    ensures AllSymbols(StdEncode(bs))
    decreases |bs|
  {
    hide CharOf, IsSymbol, Sextet0, Sextet1, Sextet2, Sextet3;
    if bs != [] {
      StdIsSymbols(From(bs, 3));
      var a, b, c := bs[0], Octet(bs, 1), Octet(bs, 2);
      CharOfIsSymbol(Sextet0(a));
      CharOfIsSymbol(Sextet1(a, b));
      CharOfIsSymbol(Sextet2(b, c));
      CharOfIsSymbol(Sextet3(c));
    }
  }

  lemma PlusAndSlash()
    ensures IsSymbol('+') && IsSymbol('/')
  {
    assert CHARSET[62] == '+' && CHARSET[63] == '/';
  }

  lemma TranslateBack(s: string)
    requires forall i :: 0 <= i < |s| ==> IsUrlSymbol(s[i])
    ensures AllSymbols(ToStd(s)) && ToUrl(ToStd(s)) == s
  {
    hide IsSymbol, Replace;
    PlusAndSlash();
    var t := ToStd(s);
    forall i | 0 <= i < |s| ensures IsSymbol(t[i]) && ToUrl(t)[i] == s[i] {
      assert IsUrlSymbol(s[i]);
    }
  }

  lemma CanonicalReencodes(s: string)
    requires Canonical(s)
    ensures Decoded(s).Ok? && Encoded(Decoded(s).value) == s
  {
    hide StdEncode, StdDecode, Excess, AllSymbols, IsUrlSymbol, SpareBitsZero, Pad, ToStd, ToUrl;
    var t := ToStd(s);
    TranslateBack(s);
    PadThenTranslate(s);
    var n := WholeGroups(t);
    StdReencodes(t, n);
  }

  lemma EncodingIsCanonical(bs: Octets)
    ensures Canonical(Encoded(bs))
  {
    hide StdEncode, StdDecode, Excess, IsSymbol, SpareBitsZero, Pad;
    var u, s := StdEncode(bs), Encoded(bs);
    StdIsSymbols(bs);
    StdIsPlain(bs);
    LengthIsLegal(bs);
    SameLengthSameExcess(u, s);
    assert ToStd(s) == u;
    var n := WholeGroups(u);
    StdReencodes(u, n);
    StdRoundTrip(bs);
  }

  /** A text is the encoding of what it decodes to exactly when it is canonical. */
  lemma ReencodesExactly(s: string)
    ensures Decoded(s).Ok? && Encoded(Decoded(s).value) == s <==> Canonical(s)
  {
    hide Decoded, Encoded, Canonical;
    if Canonical(s) {
      CanonicalReencodes(s);
    } else if Decoded(s).Ok? {
      EncodingIsCanonical(Decoded(s).value);
    }
  }

  // ---- Decoding by bits -----------------------------------------------------------------

  /** The value of a readable character, in either alphabet; padding stands for zeros. */
  function SixBits(c: char): (v: nat)
    ensures v < 64
  {
    if 'A' <= c <= 'Z' then c as int - 'A' as int
    else if 'a' <= c <= 'z' then c as int - 'a' as int + 26
    else if '0' <= c <= '9' then c as int - '0' as int + 52
    else if c == '+' || c == '-' then 62
    else if c == '/' || c == '_' then 63
    else 0
  }

  function InStd(c: char): char {
    if c == '-' then '+' else if c == '_' then '/' else c
  }

  lemma ValueIsSixBits(c: char)
    requires Readable(c)
    ensures CharToVal(InStd(c)) == Some(SixBits(c) as bv8)
  {
    ReadableExactly(c);
    if c != '=' {
      PositionIsSixBits(c);
    }
  }

  lemma RangeIsSixBits(c: char, p: nat)
    requires p < 64
    requires InStd(c) as int ==
               if p < 26 then 'A' as int + p
               else if p < 52 then 'a' as int + p - 26
               else if p < 62 then '0' as int + p - 52
               else if p == 62 then '+' as int else '/' as int
    ensures SixBits(c) == p
  {
  }

  lemma PositionIsSixBits(c: char)
    requires Readable(c) && c != '='
    ensures InStd(c) in CHARSET && Position(CHARSET, InStd(c)) == Some(SixBits(c))
  {
    hide SixBits, Position;
    assert CHARSET[62] == '+' && CHARSET[63] == '/';
    var p := Position(CHARSET, InStd(c)).value;
    CharsetIsRanges(p);
    RangeIsSixBits(c, p);
  }

  /** Four characters side by side. */
  function Joint(g: string): bv24
    requires |g| == 4
  {
    SixTimesFour(SixBits(g[0]) as bv8, SixBits(g[1]) as bv8, SixBits(g[2]) as bv8, SixBits(g[3]) as bv8)
  }

  function SixTimesFour(a: bv8, b: bv8, c: bv8, d: bv8): bv24 {
    ((a as bv24) << 18) | ((b as bv24) << 12) | ((c as bv24) << 6) | (d as bv24)
  }

  function EightOf(bits: bv24, k: nat): bv8
    requires k < 3
  {
    ((if k == 0 then bits >> 16 else if k == 1 then bits >> 8 else bits) & 0xff) as bv8
  }

  /** The octets of each four characters: the first always, the second and third unless padding stands in their place. */
  function OctetsByBits(s: string): Octets
    decreases |s|
  {
    if |s| < 4 then []
    else
      var bits := Joint(s[..4]);
      [EightOf(bits, 0)] + (if s[2] != '=' then [EightOf(bits, 1)] else []) + (if s[3] != '=' then [EightOf(bits, 2)] else [])
      + OctetsByBits(s[4..])
  }

  lemma OctetsAreEights(a: bv8, b: bv8, c: bv8, d: bv8)
    requires a < 64 && b < 64 && c < 64 && d < 64
    ensures var bits := SixTimesFour(a, b, c, d);
      EightOf(bits, 0) == Octet0(a, b) && EightOf(bits, 1) == Octet1(b, c) && EightOf(bits, 2) == Octet2(c, d)
  {
  }

  lemma ToStdAt(s: string, i: nat)
    requires i < |s|
    ensures |ToStd(s)| == |s| && ToStd(s)[i] == InStd(s[i]) && (ToStd(s)[i] == '=' <==> s[i] == '=')
  {
  }

  lemma GroupValues(g: string, a: bv8, b: bv8, c: bv8, d: bv8)
    requires |g| == 4 && CharToVal(g[0]) == Some(a) && CharToVal(g[1]) == Some(b) && CharToVal(g[2]) == Some(c) && CharToVal(g[3]) == Some(d)
    ensures GroupOctets(g) == Ok([Octet0(a, b)] + (if g[2] != '=' then [Octet1(b, c)] else []) + (if g[3] != '=' then [Octet2(c, d)] else []))
  {
    hide CharToVal, Octet0, Octet1, Octet2;
  }

  lemma GroupByBits(g: string)
    requires |g| == 4 && forall i :: 0 <= i < 4 ==> Readable(g[i])
    ensures GroupOctets(ToStd(g)) ==
              Ok([EightOf(Joint(g), 0)] + (if g[2] != '=' then [EightOf(Joint(g), 1)] else []) + (if g[3] != '=' then [EightOf(Joint(g), 2)] else []))
  {
    hide CharToVal, SixBits, EightOf, SixTimesFour, Octet0, Octet1, Octet2, Readable, ToStd, InStd, GroupOctets;
    ToStdAt(g, 2);
    ToStdAt(g, 3);
    forall i | 0 <= i < 4 ensures CharToVal(ToStd(g)[i]) == Some(SixBits(g[i]) as bv8) && SixBits(g[i]) as bv8 < 64 {
      ToStdAt(g, i);
      ValueIsSixBits(g[i]);
      AsOctet(SixBits(g[i]));
    }
    var a, b, c, d := SixBits(g[0]) as bv8, SixBits(g[1]) as bv8, SixBits(g[2]) as bv8, SixBits(g[3]) as bv8;
    GroupValues(ToStd(g), a, b, c, d);
    OctetsAreEights(a, b, c, d);
  }

  lemma {:induction false} StdByBits(s: string, n: nat)
    requires |s| == 4 * n && forall i :: 0 <= i < |s| ==> Readable(s[i])
    ensures StdDecode(ToStd(s)) == Ok(OctetsByBits(s))
    decreases n
  {
    hide GroupOctets, Joint, EightOf, Readable;
    if n > 0 {
      assert ToStd(s)[..4] == ToStd(s[..4]) && ToStd(s)[4..] == ToStd(s[4..]);
      GroupByBits(s[..4]);
      StdByBits(s[4..], n - 1);
    }
  }

  /** An accepted text decodes to the bits of its characters, padding added, cut into octets. */
  lemma DecodedByBits(s: string)
    requires Decoded(s).Ok?
    ensures Decoded(s) == Ok(OctetsByBits(Pad(s)))
  {
    hide StdDecode, Readable, OctetsByBits, Excess;
    AcceptedExactly(s);
    PadReadable(s);
    var n := PadIsWhole(s);
    StdByBits(Pad(s), n);
  }

  lemma PadReadable(s: string)
    requires forall i :: 0 <= i < |s| ==> Readable(s[i])
    ensures forall i :: 0 <= i < |Pad(s)| ==> Readable(Pad(s)[i])
  {
    assert Readable('=');
    hide Readable;
  }
}
