/**
 * Tree-item keys are hyphen-separated strings such as "2-15-7" (level, id,
 * further ids). This module gives the string operations the panel applies to
 * them: `split('-')`, `Number(...)` and template-literal formatting.
 */
module Keys {
  import opened Wrappers

  const Hyphen: char := '-'

  /** `s.split('-')`: the pieces between hyphens, empty pieces included. */
  function Split(s: string): (parts: seq<string>)
    ensures |parts| >= 1
    ensures forall i :: 0 <= i < |parts| ==> Hyphen !in parts[i]
  {
    if s == [] then [""]
    else
      var rest := Split(s[1..]);
      if s[0] == Hyphen then [""] + rest else [[s[0]] + rest[0]] + rest[1..]
  }

  /** `parts.join('-')`. */
  function Join(parts: seq<string>): string
    requires |parts| >= 1
  {
    if |parts| == 1 then parts[0] else parts[0] + [Hyphen] + Join(parts[1..])
  }

  /** Joining the pieces of a split gives back the string. */
  lemma {:induction false} JoinSplit(s: string)
    ensures Join(Split(s)) == s
  {
    if s != [] {
      var rest := Split(s[1..]);
      JoinSplit(s[1..]);
      if s[0] != Hyphen {
        var parts := [[s[0]] + rest[0]] + rest[1..];
        if |rest| == 1 {
          assert Join(parts) == [s[0]] + rest[0];
        } else {
          assert parts[1..] == rest[1..];
          assert Join(rest) == rest[0] + [Hyphen] + Join(rest[1..]);
          assert Join(parts) == [s[0]] + rest[0] + [Hyphen] + Join(rest[1..]);
        }
        assert s == [s[0]] + s[1..];
      } else {
        assert ([""] + rest)[1..] == rest;
        assert s == [Hyphen] + s[1..];
      }
    }
  }

  /** A piece without hyphens followed by the rest of the string is the first piece of the split. */
  lemma {:induction false} SplitPrefix(a: string, rest: string)
    requires Hyphen !in a
    ensures Split(a + rest) == [a + Split(rest)[0]] + Split(rest)[1..]
  {
    if a != [] {
      assert (a + rest)[0] == a[0];
      assert (a + rest)[1..] == a[1..] + rest;
      SplitPrefix(a[1..], rest);
      assert [a[0]] + (a[1..] + Split(rest)[0]) == a + Split(rest)[0];
    } else {
      var parts := Split(rest);
      assert a + rest == rest;
      assert a + parts[0] == parts[0];
      assert [parts[0]] + parts[1..] == parts;
    }
  }

  /** Splitting right after a hyphen-free piece and its hyphen. */
  lemma SplitAfter(a: string, rest: string)
    requires Hyphen !in a
    ensures Split(a + [Hyphen] + rest) == [a] + Split(rest)
  {
    assert a + [Hyphen] + rest == a + ([Hyphen] + rest);
    SplitPrefix(a, [Hyphen] + rest);
    assert ([Hyphen] + rest)[1..] == rest;
    assert a + "" == a;
  }

  /** Splitting the join of hyphen-free pieces gives back the pieces. */
  lemma {:induction false} SplitJoin(parts: seq<string>)
    requires |parts| >= 1
    requires forall i :: 0 <= i < |parts| ==> Hyphen !in parts[i]
    ensures Split(Join(parts)) == parts
  {
    if |parts| == 1 {
      SplitPrefix(parts[0], "");
      assert parts[0] + "" == parts[0];
    } else {
      SplitJoin(parts[1..]);
      SplitAfter(parts[0], Join(parts[1..]));
      assert parts == [parts[0]] + parts[1..];
    }
  }

  /** A split yields a single piece exactly when the string holds no hyphen. */
  lemma {:induction false} SplitSingle(s: string)
    ensures |Split(s)| == 1 <==> Hyphen !in s
  {
    if s != [] {
      SplitSingle(s[1..]);
      assert s == [s[0]] + s[1..];
    }
  }

  /** `s.split('-')[i]`; `None` (JavaScript's `undefined`) past the last piece. */
  function Segment(s: string, i: nat): Option<string>
  {
    var parts := Split(s);
    if i < |parts| then Some(parts[i]) else None
  }

  /**
   * What `Number(...)` yields for the panel's key segments, and what array
   * destructuring yields for a missing element (`Undefined`).
   */
  datatype JsNumber = Num(n: nat) | NaN | Undefined

  /** `a === b` on such values: `NaN` equals nothing, not even itself. */
  predicate StrictEquals(a: JsNumber, b: JsNumber)
  {
    match a
    case Num(n) => b == Num(n)
    case NaN => false
    case Undefined => b == Undefined
  }

  predicate IsDigit(c: char)
  {
    '0' <= c <= '9'
  }

  predicate AllDigits(s: string)
  {
    forall i :: 0 <= i < |s| ==> IsDigit(s[i])
  }

  /** The value of a string of decimal digits; the empty string counts as 0. */
  function DigitsValue(s: string): nat
    requires AllDigits(s)
  {
    if s == [] then 0 else 10 * DigitsValue(s[..|s| - 1]) + (s[|s| - 1] as int - '0' as int)
  }

  /**
   * `Number(segment)`: a string of decimal digits reads as its value, `undefined`
   * and anything else as `NaN`. It never yields `undefined` itself.
   */
  function ToNumber(segment: Option<string>): (r: JsNumber)
    ensures r != Undefined
    ensures r.Num? <==> segment.Some? && AllDigits(segment.value)
  {
    match segment
    case None => NaN
    case Some(s) => if AllDigits(s) then Num(DigitsValue(s)) else NaN
  }

  function Digit(d: nat): (c: char)
    requires d < 10
    ensures IsDigit(c)
  {
    ('0' as int + d) as char
  }

  /** The decimal text of `n`, as `${n}` writes it. */
  function Decimal(n: nat): (s: string)
    ensures |s| >= 1 && AllDigits(s)
  {
    if n < 10 then [Digit(n)] else Decimal(n / 10) + [Digit(n % 10)]
  }

  /** Reading back the decimal text of a number gives the number. */
  lemma {:induction false} DecimalRoundTrip(n: nat)
    ensures ToNumber(Some(Decimal(n))) == Num(n)
  {
    var s := Decimal(n);
    if n >= 10 {
      DecimalRoundTrip(n / 10);
      assert s[..|s| - 1] == Decimal(n / 10);
      assert DigitsValue(Decimal(n / 10)) == n / 10;
      assert DigitsValue(s) == 10 * (n / 10) + n % 10;
    } else {
      assert s[..|s| - 1] == [];
      assert DigitsValue(s) == n;
    }
  }

  /** `${x}` for a value that may be `NaN` or `undefined`. */
  function Text(x: JsNumber): (s: string)
    ensures Hyphen !in s
  {
    match x
    case Num(n) => Decimal(n)
    case NaN => "NaN"
    case Undefined => "undefined"
  }

  /** The first two segments of `a-b-c`, for pieces `a` and `b` without hyphens. */
  lemma LeadingSegments(a: string, b: string, c: string)
    requires Hyphen !in a && Hyphen !in b
    ensures Segment(a + [Hyphen] + b + [Hyphen] + c, 0) == Some(a)
    ensures Segment(a + [Hyphen] + b + [Hyphen] + c, 1) == Some(b)
  {
    assert a + [Hyphen] + b + [Hyphen] + c == a + [Hyphen] + (b + [Hyphen] + c);
    SplitAfter(a, b + [Hyphen] + c);
    SplitAfter(b, c);
  }

  /** `Number` reads `${x}` back as `x` when `x` is a number, and as `NaN` for `NaN` and `undefined`. */
  lemma TextReadsBack(x: JsNumber)
    ensures ToNumber(Some(Text(x))) == if x.Num? then x else NaN
  {
    match x
    case Num(n) => DecimalRoundTrip(n);
    case NaN => assert !IsDigit(Text(x)[0]);
    case Undefined => assert !IsDigit(Text(x)[0]);
  }

  /** `optional?.id` read as a number. */
  function FromOption(id: Option<nat>): JsNumber
  {
    match id
    case Some(n) => Num(n)
    case None => Undefined
  }

  /** The key whose segments are the decimal texts of `ids`, such as "2-15-7". */
  function KeyOf(ids: seq<nat>): string
    requires |ids| >= 1
  {
    Join(seq(|ids|, i requires 0 <= i < |ids| => Decimal(ids[i])))
  }

  /** Every segment of such a key reads back as its number, and there are no others. */
  lemma KeySegments(ids: seq<nat>)
    requires |ids| >= 1
    ensures KeyOf(ids) != ""
    ensures |Split(KeyOf(ids))| == |ids|
    ensures forall i :: 0 <= i < |ids| ==> ToNumber(Segment(KeyOf(ids), i)) == Num(ids[i])
  {
    var parts := seq(|ids|, i requires 0 <= i < |ids| => Decimal(ids[i]));
    forall i | 0 <= i < |parts| ensures Hyphen !in parts[i] {
      assert AllDigits(parts[i]);
    }
    SplitJoin(parts);
    JoinSplit(KeyOf(ids));
    forall i | 0 <= i < |ids| ensures ToNumber(Segment(KeyOf(ids), i)) == Num(ids[i]) {
      DecimalRoundTrip(ids[i]);
    }
  }
}
