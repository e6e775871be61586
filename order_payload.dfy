/**
 * The `newOrder` form field of the delete request (src/app/page.tsx):
 * `JSON.stringify(checkedPages)`. For an array of integers of magnitude below
 * 1e21 (page indices are far below it) JSON.stringify writes `[`, each number
 * in decimal (a minus sign for negatives, no leading zeros), separated by `,`
 * with no spaces, and `]`. The model writes every `int` that way. `ParseOrder`
 * is the model's own decoder of exactly that text, the partner against which
 * the encoding is proved lossless and canonical.
 */
module OrderPayload {
  import opened Wrappers

  predicate IsDigit(c: char) {
    '0' <= c <= '9'
  }

  predicate AllDigits(t: string) {
    forall i :: 0 <= i < |t| ==> IsDigit(t[i])
  }

  function DigitValue(c: char): (d: nat)
    requires IsDigit(c)
    ensures d < 10
  {
    c as int - '0' as int
  }

  function DigitChar(d: nat): (c: char)
    requires d < 10
    ensures IsDigit(c) && DigitValue(c) == d
  {
    ('0' as int + d) as char
  }

  /** Decimal text with no leading zero: "0", "7", "42", never "007". */
  predicate IsCanonicalDigits(t: string) {
    |t| >= 1 && AllDigits(t) && (|t| > 1 ==> t[0] != '0')
  }

  /** The decimal digits of `n`, most significant first. */
  function NatToDigits(n: nat): (r: string)
    ensures IsCanonicalDigits(r)
    ensures n < 10 <==> |r| == 1
  {
    if n < 10 then [DigitChar(n)] else NatToDigits(n / 10) + [DigitChar(n % 10)]
  }

  /** The number that a string of decimal digits denotes. */
  function DigitsValue(t: string): nat
    requires AllDigits(t)
  {
    if t == [] then 0 else 10 * DigitsValue(t[..|t| - 1]) + DigitValue(t[|t| - 1])
  }

  /** The decimal text JSON.stringify writes for one array element, for integers
      of magnitude below 1e21. */
  function NumberToJson(x: int): (r: string)
    ensures |r| >= 1 && ',' !in r
  {
    if x < 0 then "-" + NatToDigits(-x) else NatToDigits(x)
  }

  /** `Array.prototype.join` with the separator ",". */
  function JoinWithCommas(parts: seq<string>): string {
    if |parts| == 0 then "" else parts[0] + CommaPrefixed(parts[1..])
  }

  /** Each part preceded by a ",". */
  function CommaPrefixed(parts: seq<string>): string {
    if |parts| == 0 then "" else "," + parts[0] + CommaPrefixed(parts[1..])
  }

  /** `s.map(String)`: the text of each element. */
  function EncodeAll(s: seq<int>): (r: seq<string>)
    ensures |r| == |s|
    ensures forall i :: 0 <= i < |r| ==> ',' !in r[i] && |r[i]| >= 1
  {
    if s == [] then [] else [NumberToJson(s[0])] + EncodeAll(s[1..])
  }

  /** `JSON.stringify(checkedPages)`: the value of the `newOrder` field. */
  function Stringify(s: seq<int>): string {
    "[" + JoinWithCommas(EncodeAll(s)) + "]"
  }

  /** Splits text at every ",": "1,,2" gives ["1", "", "2"]. */
  function SplitCommas(t: string): (r: seq<string>)
    ensures |r| >= 1
    ensures forall i :: 0 <= i < |r| ==> ',' !in r[i]
  {
    if t == [] then [""]
    else
      var rest := SplitCommas(t[1..]);
      if t[0] == ',' then [""] + rest
      else [[t[0]] + rest[0]] + rest[1..]
  }

  /** Reads one number in the form JSON.stringify writes it. */
  function ParseNumber(t: string): Option<int> {
    if IsCanonicalDigits(t) then Some(DigitsValue(t))
    else if |t| >= 2 && t[0] == '-' && IsCanonicalDigits(t[1..]) && t[1..] != "0" then var v: int := DigitsValue(t[1..]); Some(-v)
    else None
  }

  function ParseNumbers(parts: seq<string>): Option<seq<int>> {
    if parts == [] then Some([])
    else match ParseNumber(parts[0])
      case None => None
      case Some(x) =>
        match ParseNumbers(parts[1..])
        case None => None
        case Some(xs) => Some([x] + xs)
  }

  /** Decodes a `newOrder` value back into the page array; `None` for any
      text JSON.stringify does not write for an integer array. */
  function ParseOrder(t: string): Option<seq<int>> {
    if |t| >= 2 && t[0] == '[' && t[|t| - 1] == ']' then
      var inner := t[1..|t| - 1];
      if inner == [] then Some([]) else ParseNumbers(SplitCommas(inner))
    else None
  }

  // ---- the digits of one number ----

  lemma {:induction false} DigitsRoundTrip(n: nat)
    ensures DigitsValue(NatToDigits(n)) == n
  {
    if n >= 10 {
      var w := NatToDigits(n / 10);
      var t := NatToDigits(n);
      assert t == w + [DigitChar(n % 10)];
      assert t[..|t| - 1] == w;
      DigitsRoundTrip(n / 10);
    }
  }

  /** A canonical digit string with more than one digit denotes at least 10. */
  lemma {:induction false} CanonicalValuePositive(t: string)
    requires IsCanonicalDigits(t) && t[0] != '0'
    ensures DigitsValue(t) >= 1
    ensures |t| > 1 ==> DigitsValue(t) >= 10
  {
    if |t| > 1 {
      var w := t[..|t| - 1];
      assert w[0] == t[0];
      CanonicalValuePositive(w);
    } else {
      assert t[..0] == [];
    }
  }

  lemma DivModTen(m: nat, d: nat)
    requires d < 10
    ensures (10 * m + d) / 10 == m && (10 * m + d) % 10 == d
  {
  }

  lemma {:induction false} DigitsCanonical(t: string)
    requires IsCanonicalDigits(t)
    ensures NatToDigits(DigitsValue(t)) == t
  {
    var last := t[|t| - 1];
    var d := DigitValue(last);
    assert DigitChar(d) == last;
    if |t| == 1 {
      assert t[..0] == [];
      assert DigitsValue(t) == d;
      assert t == [last];
    } else {
      var w := t[..|t| - 1];
      assert w[0] == t[0];
      assert IsCanonicalDigits(w);
      var m := DigitsValue(w);
      assert DigitsValue(t) == 10 * m + d;
      CanonicalValuePositive(w);
      DivModTen(m, d);
      DigitsCanonical(w);
      assert NatToDigits(10 * m + d) == NatToDigits(m) + [DigitChar(d)];
      assert t == w + [last];
    }
  }

  /** One element survives the encoding. */
  lemma NumberRoundTrip(x: int)
    ensures ParseNumber(NumberToJson(x)) == Some(x)
  {
    if x < 0 {
      var d := NatToDigits(-x);
      assert ("-" + d)[1..] == d;
      DigitsRoundTrip(-x);
    } else {
      DigitsRoundTrip(x);
    }
  }

  /** One element is read only from the text the encoding writes for it. */
  lemma NumberCanonical(t: string, x: int)
    requires ParseNumber(t) == Some(x)
    ensures NumberToJson(x) == t
  {
    if IsCanonicalDigits(t) {
      DigitsCanonical(t);
    } else {
      var d := t[1..];
      DigitsCanonical(d);
      assert DigitsValue(d) != 0 by {
        if |d| == 1 {
          assert d[..0] == [];
        } else {
          CanonicalValuePositive(d);
        }
      }
      assert t == "-" + d;
    }
  }

  // ---- splitting and joining at commas ----

  lemma JoinCons(parts: seq<string>)
    requires |parts| >= 2
    ensures JoinWithCommas(parts) == parts[0] + "," + JoinWithCommas(parts[1..])
  {
    var rest := parts[1..];
    assert rest[1..] == parts[2..];
    assert CommaPrefixed(rest) == "," + JoinWithCommas(rest);
  }

  lemma {:induction false} SplitWithoutComma(a: string, b: string)
    requires ',' !in a
    ensures SplitCommas(a) == [a]
    ensures SplitCommas(a + "," + b) == [a] + SplitCommas(b)
  {
    if a != [] {
      assert a[1..] + "," + b == (a + "," + b)[1..];
      SplitWithoutComma(a[1..], b);
      assert [a[0]] + a[1..] == a;
    } else {
      assert a + "," + b == [','] + b;
      assert ([','] + b)[1..] == b;
    }
  }

  lemma {:induction false} SplitJoin(parts: seq<string>)
    requires |parts| >= 1
    requires forall i :: 0 <= i < |parts| ==> ',' !in parts[i]
    ensures SplitCommas(JoinWithCommas(parts)) == parts
  {
    if |parts| == 1 {
      SplitWithoutComma(parts[0], "");
      assert JoinWithCommas(parts) == parts[0] + "" == parts[0];
      assert parts == [parts[0]];
    } else {
      JoinCons(parts);
      SplitJoin(parts[1..]);
      SplitWithoutComma(parts[0], JoinWithCommas(parts[1..]));
    }
  }

  /** Gluing a character to the front of the first piece glues it to the front of the joined text. */
  lemma JoinPrepend(c: char, parts: seq<string>)
    requires |parts| >= 1
    ensures JoinWithCommas([[c] + parts[0]] + parts[1..]) == [c] + JoinWithCommas(parts)
  {
    var glued := [[c] + parts[0]] + parts[1..];
    assert glued[1..] == parts[1..];
    var tail := CommaPrefixed(parts[1..]);
    assert ([c] + parts[0]) + tail == [c] + (parts[0] + tail);
  }

  lemma {:induction false} JoinSplit(t: string)
    ensures JoinWithCommas(SplitCommas(t)) == t
  {
    if t != [] {
      var rest := SplitCommas(t[1..]);
      JoinSplit(t[1..]);
      assert t == [t[0]] + t[1..];
      if t[0] == ',' {
        var r := [""] + rest;
        assert SplitCommas(t) == r;
        assert r[1..] == rest;
        JoinCons(r);
      } else {
        assert SplitCommas(t) == [[t[0]] + rest[0]] + rest[1..];
        JoinPrepend(t[0], rest);
      }
    }
  }

  // ---- the whole array ----

  lemma {:induction false} ParseNumbersOfEncoded(s: seq<int>)
    ensures ParseNumbers(EncodeAll(s)) == Some(s)
  {
    var parts := EncodeAll(s);
    if s != [] {
      NumberRoundTrip(s[0]);
      ParseNumbersOfEncoded(s[1..]);
      assert s == [s[0]] + s[1..];
    }
  }

  lemma {:induction false} ParseNumbersCanonical(parts: seq<string>, s: seq<int>)
    requires ParseNumbers(parts) == Some(s)
    ensures parts == EncodeAll(s)
  {
    if parts != [] {
      var x := ParseNumber(parts[0]).value;
      var xs := ParseNumbers(parts[1..]).value;
      assert s == [x] + xs;
      NumberCanonical(parts[0], x);
      ParseNumbersCanonical(parts[1..], xs);
      assert parts == [parts[0]] + parts[1..];
    }
  }

  /** `ParseOrder` reads back exactly the array that was encoded, in the same order. */
  lemma StringifyRoundTrip(s: seq<int>)
    ensures ParseOrder(Stringify(s)) == Some(s)
  {
    var parts := EncodeAll(s);
    var inner := JoinWithCommas(parts);
    var t := Stringify(s);
    assert t[1..|t| - 1] == inner;
    if s == [] {
    } else {
      assert |parts[0]| >= 1;
      assert inner != [] by {
        assert |inner| >= |parts[0]|;
      }
      SplitJoin(parts);
      ParseNumbersOfEncoded(s);
    }
  }

  /** Every text the decoder accepts is the encoding of what it returns, so the
      encoding of a page array is unique. */
  lemma StringifyCanonical(t: string, s: seq<int>)
    requires ParseOrder(t) == Some(s)
    ensures Stringify(s) == t
  {
    var inner := t[1..|t| - 1];
    assert t == "[" + inner + "]";
    if inner == [] {
      assert s == [];
    } else {
      var parts := SplitCommas(inner);
      ParseNumbersCanonical(parts, s);
      JoinSplit(inner);
    }
  }

  lemma StringifyExample()
    ensures Stringify([1, 2, 0]) == "[1,2,0]"
  {
    var s := [1, 2, 0];
    assert s[1..] == [2, 0] && s[1..][1..] == [0] && s[1..][1..][1..] == [];
    assert NumberToJson(1) == "1" && NumberToJson(2) == "2" && NumberToJson(0) == "0";
    var parts := EncodeAll(s);
    assert parts == ["1", "2", "0"];
    assert parts[1..] == ["2", "0"];
    assert parts[1..][1..] == ["0"];
  }
}
