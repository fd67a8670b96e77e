/** The `items` query parameter of the point search: a comma-separated list of item ids,
    read as `String(items).split(',').map(i => Number(i.trim()))`.
    A non-numeric segment becomes `None`, which matches no item id. */
module ItemQuery {
  import opened Wrappers

  const Comma: char := ','

  /** Number of occurrences of `c` in `s`. */
  function Occurrences(s: string, c: char): nat {
    if s == [] then 0 else (if s[0] == c then 1 else 0) + Occurrences(s[1..], c)
  }

  // ---------------------------------------------------------------------------
  // split

  /** `s.split(sep)` for a one-character separator: the pieces between separators,
      including empty pieces at either end and between adjacent separators. */
  function Split(s: string, sep: char): (parts: seq<string>)
    ensures |parts| == Occurrences(s, sep) + 1
    ensures forall k :: 0 <= k < |parts| ==> sep !in parts[k]
    decreases |s|
  {
    if s == [] then [""]
    else
      var rest := Split(s[1..], sep);
      if s[0] == sep then [""] + rest
      else [[s[0]] + rest[0]] + rest[1..]
  }

  /** The pieces put back together with `sep` between them (`Array.prototype.join`). */
  function Join(parts: seq<string>, sep: char): string
    requires |parts| >= 1
  {
    if |parts| == 1 then parts[0] else parts[0] + [sep] + Join(parts[1..], sep)
  }

  /** Splitting loses nothing: joining the pieces gives back the string. */
  lemma {:induction false} JoinOfSplit(s: string, sep: char)
    ensures Join(Split(s, sep), sep) == s
    decreases |s|
  {
    if s != [] {
      var rest := Split(s[1..], sep);
      JoinOfSplit(s[1..], sep);
      if s[0] == sep {
        assert ([""] + rest)[1..] == rest;
      } else {
        var parts := [[s[0]] + rest[0]] + rest[1..];
        if |rest| > 1 {
          assert parts[1..] == rest[1..];
        }
      }
    }
  }

  /** A piece free of `sep` is split off whole. */
  lemma {:induction false} SplitAfterPiece(p: string, sep: char, t: string)
    requires sep !in p
    ensures Split(p + [sep] + t, sep) == [p] + Split(t, sep)
    decreases |p|
  {
    if p == [] {
      assert ([sep] + t)[1..] == t;
    } else {
      assert (p + [sep] + t)[1..] == p[1..] + [sep] + t;
      SplitAfterPiece(p[1..], sep, t);
      assert [p[0]] + p[1..] == p;
    }
  }

  /** A string free of `sep` is one piece. */
  lemma {:induction false} SplitOfPiece(p: string, sep: char)
    requires sep !in p
    ensures Split(p, sep) == [p]
    decreases |p|
  {
    if p != [] {
      SplitOfPiece(p[1..], sep);
      assert [p[0]] + p[1..] == p;
    }
  }

  /** Joining pieces free of `sep` and splitting again gives back the pieces. */
  lemma {:induction false} SplitOfJoin(parts: seq<string>, sep: char)
    requires |parts| >= 1
    requires forall k :: 0 <= k < |parts| ==> sep !in parts[k]
    ensures Split(Join(parts, sep), sep) == parts
    decreases |parts|
  {
    if |parts| == 1 {
      SplitOfPiece(parts[0], sep);
    } else {
      SplitOfJoin(parts[1..], sep);
      SplitAfterPiece(parts[0], sep, Join(parts[1..], sep));
      assert [parts[0]] + parts[1..] == parts;
    }
  }

  // ---------------------------------------------------------------------------
  // trim

  /** A list of code points. */
  datatype Codes = End | Code(first: int, rest: Codes)

  /** Whether `n` is one of `codes`. */
  predicate Listed(n: int, codes: Codes) {
    codes.Code? && (codes.first == n || Listed(n, codes.rest))
  }

  /** The ASCII code points `String.prototype.trim` removes: tab, line feed, vertical tab,
      form feed, carriage return and space. */
  const AsciiTrimmable: Codes :=
    Code(0x0009, Code(0x000A, Code(0x000B, Code(0x000C, Code(0x000D, Code(0x0020, End))))))

  /** The other code points it removes: no-break space, ogham space mark, the Unicode space
      separators U+2000 to U+200A, line separator, paragraph separator, narrow no-break space,
      medium mathematical space, ideographic space and the byte order mark. */
  const OtherTrimmable: Codes :=
    Code(0x00A0, Code(0x1680, Code(0x2000, Code(0x2001, Code(0x2002, Code(0x2003, Code(0x2004,
    Code(0x2005, Code(0x2006, Code(0x2007, Code(0x2008, Code(0x2009, Code(0x200A, Code(0x2028,
    Code(0x2029, Code(0x202F, Code(0x205F, Code(0x3000, Code(0xFEFF, End)))))))))))))))))))

  /** The characters `String.prototype.trim` removes: the ECMAScript WhiteSpace and
      LineTerminator code points. The ASCII ones are all at most U+0020 and the others all at
      least U+00A0, so each list is searched only in its own range. */
  predicate IsTrimmable(c: char) {
    var n := c as int;
    (n <= 0x20 && Listed(n, AsciiTrimmable)) || (0xA0 <= n && Listed(n, OtherTrimmable))
  }

  /** The step of `TrimStart`: leading whitespace of `tail == s[1..]`, after a whitespace
      `s[0]`, is leading whitespace of `s`. */
  lemma {:induction false} DropFirst(s: string, tail: string, r: string)
    requires s != [] && IsTrimmable(s[0]) && tail == s[1..]
    requires |r| <= |tail| && r == tail[|tail| - |r|..]
    requires forall k :: 0 <= k < |tail| - |r| ==> IsTrimmable(tail[k])
    ensures r == s[|s| - |r|..]
    ensures forall k :: 0 <= k < |s| - |r| ==> IsTrimmable(s[k])
  {
    assert tail[|tail| - |r|..] == s[|s| - |r|..];
    forall k | 0 <= k < |s| - |r| ensures IsTrimmable(s[k]) {
      if k > 0 {
        assert s[k] == tail[k - 1];
      }
    }
  }

  /** The step of `TrimEnd`: trailing whitespace of `init == s[..|s| - 1]`, before a
      whitespace last character, is trailing whitespace of `s`. */
  lemma {:induction false} DropLast(s: string, init: string, r: string)
    requires s != [] && IsTrimmable(s[|s| - 1]) && init == s[..|s| - 1]
    requires |r| <= |init| && r == init[..|r|]
    requires forall k :: |r| <= k < |init| ==> IsTrimmable(init[k])
    ensures r == s[..|r|]
    ensures forall k :: |r| <= k < |s| ==> IsTrimmable(s[k])
  {
    assert init[..|r|] == s[..|r|];
    forall k | |r| <= k < |s| ensures IsTrimmable(s[k]) {
      if k < |init| {
        assert s[k] == init[k];
      }
    }
  }

  /** `s` without its leading whitespace. */
  function TrimStart(s: string): (r: string)
    ensures |r| <= |s| && r == s[|s| - |r|..]
    ensures r == [] || !IsTrimmable(r[0])
    ensures forall k :: 0 <= k < |s| - |r| ==> IsTrimmable(s[k])
    decreases |s|
  {
    if s != [] && IsTrimmable(s[0]) then
      var tail := s[1..];
      var r := TrimStart(tail);
      DropFirst(s, tail, r);
      r
    else s
  }

  /** `s` without its trailing whitespace. */
  function TrimEnd(s: string): (r: string)
    ensures |r| <= |s| && r == s[..|r|]
    ensures r == [] || !IsTrimmable(r[|r| - 1])
    ensures forall k :: |r| <= k < |s| ==> IsTrimmable(s[k])
    decreases |s|
  {
    if s != [] && IsTrimmable(s[|s| - 1]) then
      var init := s[..|s| - 1];
      var r := TrimEnd(init);
      DropLast(s, init, r);
      r
    else s
  }

  /** `s.trim()`: the result neither starts nor ends with whitespace, and a string whose ends
      are not whitespace is left as it is. */
  function Trim(s: string): (r: string)
    ensures r == [] || (!IsTrimmable(r[0]) && !IsTrimmable(r[|r| - 1]))
    ensures (s == [] || (!IsTrimmable(s[0]) && !IsTrimmable(s[|s| - 1]))) ==> r == s
  {
    var t := TrimStart(s);
    var r := TrimEnd(t);
    assert r != [] ==> r[0] == t[0];
    assert (s == [] || !IsTrimmable(s[0])) ==> t == s;
    r
  }

  /** Trimming removes the surrounding whitespace and nothing else: the result is a
      contiguous part of `s`, and everything before and after it is whitespace. */
  lemma TrimIsInfix(s: string)
    ensures exists a, b :: 0 <= a <= b <= |s| && Trim(s) == s[a..b] &&
              (forall k :: 0 <= k < a ==> IsTrimmable(s[k])) &&
              (forall k :: b <= k < |s| ==> IsTrimmable(s[k]))
  {
    var a, b := TrimBounds(s);
    InfixWithin(s, Trim(s), a, b);
  }

  /** Where `Trim` cuts `s`: the whitespace `TrimStart` skips ends at `a`, and the whitespace
      `TrimEnd` then drops starts at `b`. */
  lemma TrimBounds(s: string) returns (a: int, b: int)
    ensures 0 <= a <= b <= |s| && Trim(s) == s[a..b]
    ensures forall k :: 0 <= k < a ==> IsTrimmable(s[k])
    ensures forall k :: b <= k < |s| ==> IsTrimmable(s[k])
  {
    var t := TrimStart(s);
    var r := TrimEnd(t);
    assert Trim(s) == r;
    a := |s| - |t|;
    SliceOfSuffix(s, t, r, a);
    b := a + |r|;
  }

  /** Bounds `a` and `b` with `x == s[a..b]` and only whitespace outside them are a witness
      for the statement of `TrimIsInfix`. */
  lemma InfixWithin(s: string, x: string, a: int, b: int)
    requires 0 <= a <= b <= |s| && x == s[a..b]
    requires forall k :: 0 <= k < a ==> IsTrimmable(s[k])
    requires forall k :: b <= k < |s| ==> IsTrimmable(s[k])
    ensures exists a, b :: 0 <= a <= b <= |s| && x == s[a..b] &&
              (forall k :: 0 <= k < a ==> IsTrimmable(s[k])) &&
              (forall k :: b <= k < |s| ==> IsTrimmable(s[k]))
  {
  }

  /** Trimming the end `r` off the suffix `t == s[a..]` leaves the slice `s[a..a + |r|]`, and
      what `r` leaves off `t` is what the slice leaves off `s`. */
  lemma {:induction false} SliceOfSuffix(s: string, t: string, r: string, a: int)
    requires 0 <= a <= |s| && t == s[a..] && |r| <= |t| && r == t[..|r|]
    requires forall k :: |r| <= k < |t| ==> IsTrimmable(t[k])
    ensures r == s[a..a + |r|]
    ensures forall k :: a + |r| <= k < |s| ==> IsTrimmable(s[k])
  {
    assert s[a..a + |r|] == s[a..][..|r|];
    forall k | a + |r| <= k < |s| ensures IsTrimmable(s[k]) {
      assert s[k] == t[k - a];
    }
  }

  // ---------------------------------------------------------------------------
  // Number()

  predicate IsDigit(c: char) { '0' <= c <= '9' }

  predicate AllDigits(t: string) { forall k :: 0 <= k < |t| ==> IsDigit(t[k]) }

  /** The value of a string of decimal digits, most significant first. */
  function DigitsValue(t: string): (v: nat)
    requires AllDigits(t)
    decreases |t|
  {
    if t == [] then 0
    else DigitsValue(t[..|t| - 1]) * 10 + (t[|t| - 1] as int - '0' as int)
  }

  /** An integer literal: an optional sign followed by one or more decimal digits. */
  ghost predicate IsIntLiteral(t: string) {
    exists sign: string, digits: string ::
      (sign == "" || sign == "+" || sign == "-") && digits != [] && AllDigits(digits) && t == sign + digits
  }

  /** An integer literal either is all digits or is a sign followed by digits. */
  lemma IntLiteralShapes(t: string)
    ensures IsIntLiteral(t) <==>
            (t != [] && AllDigits(t)) || (|t| > 1 && (t[0] == '+' || t[0] == '-') && AllDigits(t[1..]))
  {
    if t != [] && AllDigits(t) {
      assert t == "" + t;
    } else if |t| > 1 && (t[0] == '+' || t[0] == '-') && AllDigits(t[1..]) {
      assert t == [t[0]] + t[1..];
    }
    if IsIntLiteral(t) {
      var sign: string, digits: string :|
        (sign == "" || sign == "+" || sign == "-") && digits != [] && AllDigits(digits) && t == sign + digits;
      if sign != "" {
        assert t[1..] == digits;
      }
    }
  }

  /** `Number(t)` on an already trimmed segment, restricted to integers:
      the empty string is 0, an integer literal is its value with its sign, and anything
      else is `None` (JavaScript's NaN, which matches no id). */
  function ParseNumber(t: string): (r: Option<int>)
    ensures t == [] ==> r == Some(0)
    ensures t != [] && AllDigits(t) ==> r == Some(DigitsValue(t))
    ensures |t| > 1 && t[0] == '+' && AllDigits(t[1..]) ==> r == Some(DigitsValue(t[1..]))
    ensures |t| > 1 && t[0] == '-' && AllDigits(t[1..]) ==> r == Some(-(DigitsValue(t[1..]) as int))
  {
    if t == [] then Some(0)
    else if |t| > 1 && t[0] == '-' && AllDigits(t[1..]) then Some(-(DigitsValue(t[1..]) as int))
    else if |t| > 1 && t[0] == '+' && AllDigits(t[1..]) then Some(DigitsValue(t[1..]))
    else if AllDigits(t) then Some(DigitsValue(t))
    else None
  }

  /** A non-empty segment reads as `None` exactly when it is not an integer literal. */
  lemma ParseNumberNaN(t: string)
    ensures ParseNumber(t).None? <==> t != [] && !IsIntLiteral(t)
  {
    IntLiteralShapes(t);
  }

  /** Leading zeros do not change the value read, so "007" reads as 7. */
  lemma {:induction false} DigitsValueLeadingZero(t: string)
    requires AllDigits(t)
    ensures AllDigits("0" + t) && DigitsValue("0" + t) == DigitsValue(t)
    decreases |t|
  {
    if t != [] {
      var init := t[..|t| - 1];
      DigitsValueLeadingZero(init);
      assert ("0" + t)[..|"0" + t| - 1] == "0" + init;
    }
  }

  /** The parsed `items` query: one entry per comma-separated segment, each the trimmed
      segment read as a number. */
  function ParseItems(query: string): (ids: seq<Option<int>>)
    ensures |ids| == Occurrences(query, Comma) + 1
    ensures forall k :: 0 <= k < |ids| ==> ids[k] == ParseNumber(Trim(Split(query, Comma)[k]))
  {
    var parts := Split(query, Comma);
    seq(|parts|, k requires 0 <= k < |parts| => ParseNumber(Trim(parts[k])))
  }

  // ---------------------------------------------------------------------------
  // The query a client writes for a list of ids, and the round trip through the parser

  function DigitChar(d: nat): char
    requires d < 10
  {
    ('0' as int + d) as char
  }

  /** Decimal notation of `n`, without leading zeros. */
  function NatToString(n: nat): (s: string)
    ensures |s| >= 1 && AllDigits(s)
    decreases n
  {
    if n < 10 then [DigitChar(n)] else NatToString(n / 10) + [DigitChar(n % 10)]
  }

  /** Decimal notation of `n`, with a leading '-' when negative. */
  function IntToString(n: int): string {
    if n < 0 then "-" + NatToString(-n) else NatToString(n)
  }

  /** The `items=1,2,3` form of a list of ids. */
  function FormatIds(ids: seq<int>): string
    requires |ids| >= 1
  {
    Join(seq(|ids|, k requires 0 <= k < |ids| => IntToString(ids[k])), Comma)
  }

  lemma {:induction false} DigitsValueOfNat(n: nat)
    ensures DigitsValue(NatToString(n)) == n
    decreases n
  {
    var s := NatToString(n);
    if n >= 10 {
      DigitsValueOfNat(n / 10);
      assert s[..|s| - 1] == NatToString(n / 10);
    }
  }

  /** `Number` reads back what `IntToString` writes. */
  lemma ParseNumberOfInt(n: int)
    ensures ParseNumber(IntToString(n)) == Some(n)
  {
    if n < 0 {
      DigitsValueOfNat(-n);
      assert IntToString(n)[1..] == NatToString(-n);
    } else {
      DigitsValueOfNat(n);
    }
  }

  /** The decimal notation of an integer holds no comma. */
  lemma IntToStringNoComma(n: int)
    ensures Comma !in IntToString(n)
  {
    if n < 0 {
      assert IntToString(n) == "-" + NatToString(-n);
    }
  }

  /** One formatted id, as a segment of the query, reads back as that id. */
  lemma ParseSegmentOfInt(n: int)
    ensures ParseNumber(Trim(IntToString(n))) == Some(n)
  {
    var s := IntToString(n);
    assert !IsTrimmable(s[0]) && !IsTrimmable(s[|s| - 1]);
    assert Trim(s) == s;
    ParseNumberOfInt(n);
  }

  /** A formatted id list parses back to exactly those ids, in order. */
  lemma ParseItemsOfFormatted(ids: seq<int>)
    requires |ids| >= 1
    ensures |ParseItems(FormatIds(ids))| == |ids|
    ensures forall k :: 0 <= k < |ids| ==> ParseItems(FormatIds(ids))[k] == Some(ids[k])
  {
    var strs := seq(|ids|, k requires 0 <= k < |ids| => IntToString(ids[k]));
    forall k | 0 <= k < |strs| ensures Comma !in strs[k] {
      IntToStringNoComma(ids[k]);
    }
    var query := FormatIds(ids);
    SplitOfJoin(strs, Comma);
    assert Split(query, Comma) == strs;
    var parsed := ParseItems(query);
    assert |parsed| == |Split(query, Comma)| == |ids|;
    forall k | 0 <= k < |ids| ensures parsed[k] == Some(ids[k]) {
      assert Split(query, Comma)[k] == IntToString(ids[k]);
      ParseSegmentOfInt(ids[k]);
    }
  }
}
