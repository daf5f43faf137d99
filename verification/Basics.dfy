/** Small datatypes and facts about finite collections shared by the other modules. */
module Basics {

  datatype Option<+T> = None | Some(value: T)

  /** The first of two optional values that is present. */
  function Or<T>(first: Option<T>, second: Option<T>): Option<T> {
    if first.Some? then first else second
  }

  ghost predicate Distinct<T(!new)>(s: seq<T>) {
    forall i, j :: 0 <= i < j < |s| ==> s[i] != s[j]
  }

  /** The elements that satisfy a predicate, in order. */
  function Keep<T(!new)>(p: T -> bool, s: seq<T>): (r: seq<T>)
    ensures forall x :: x in r <==> x in s && p(x)
  {
    if s == [] then [] else
      var n := |s| - 1;
      assert s == s[..n] + [s[n]];
      Keep(p, s[..n]) + if p(s[n]) then [s[n]] else []
  }

  lemma {:induction false} KeepAll<T(!new)>(p: T -> bool, s: seq<T>)
    requires forall x :: x in s ==> p(x)
    ensures Keep(p, s) == s
  {
    if s != [] {
      KeepAll(p, s[..|s| - 1]);
      assert s == s[..|s| - 1] + [s[|s| - 1]];
    }
  }

  lemma {:induction false} SameThroughout<T>(f: nat -> T, k: nat, m: nat)
    requires k <= m && forall i: nat :: k <= i < m ==> f(i + 1) == f(i)
    ensures f(m) == f(k)
    decreases m
  {
    if k < m {
      SameThroughout(f, k, m - 1);
      assert f(m - 1 + 1) == f(m - 1);
    }
  }

  function Decimal(n: nat): string {
    if n < 10 then [DigitOf(n)] else Decimal(n / 10) + [DigitOf(n % 10)]
  }

  function DigitOf(n: nat): (r: char)
    requires n < 10
    ensures IsDigit(r) && r as int - '0' as int == n
  {
    ('0' as int + n) as char
  }

  lemma SubsetSize<T>(small: set<T>, big: set<T>)
    requires small <= big
    ensures |small| <= |big|
    ensures small < big ==> |small| < |big|
  {
    assert big == small + (big - small);
  }

  /** A list without repetition drawn from a finite set is no longer than the set. */
  lemma {:induction false} DistinctBound<T(!new)>(s: seq<T>, universe: set<T>)
    requires Distinct(s)
    requires forall x :: x in s ==> x in universe
    ensures |s| <= |universe|
  {
    if s != [] {
      var last := s[|s| - 1];
      DistinctBound(s[..|s| - 1], universe - {last});
    }
  }

  function Elements<T(!new)>(s: seq<T>): (r: set<T>)
    ensures forall x :: x in r <==> x in s
  {
    set x | x in s
  }

  lemma {:induction false} DistinctSize<T(!new)>(s: seq<T>)
    requires Distinct(s)
    ensures |Elements(s)| == |s|
    ensures forall x :: multiset(s)[x] == if x in s then 1 else 0
  {
    if s != [] {
      var n := |s| - 1;
      DistinctSize(s[..n]);
      assert s == s[..n] + [s[n]];
      assert Elements(s) == Elements(s[..n]) + {s[n]};
    }
  }

  /** A list without repetition drawn from another such list is as long exactly when nothing is
      missing, and then it is a rearrangement. */
  lemma FullSublist<T(!new)>(small: seq<T>, big: seq<T>)
    requires Distinct(small) && Distinct(big) && forall x :: x in small ==> x in big
    ensures |small| <= |big|
    ensures |small| == |big| <==> forall x :: x in big ==> x in small
    ensures |small| == |big| ==> multiset(small) == multiset(big)
  {
    DistinctSize(small);
    DistinctSize(big);
    SubsetSize(Elements(small), Elements(big));
    if |small| == |big| {
      assert Elements(small) == Elements(big);
    } else if forall x :: x in big ==> x in small {
      SubsetSize(Elements(big), Elements(small));
    }
  }

  // ---- Decimal numbers -----------------------------------------------------------------------------

  predicate IsDigit(c: char) {
    '0' <= c <= '9'
  }

  /** The value of a string of decimal digits. */
  function ParseDigits(text: string): Option<nat> {
    if text == "" then Some(0) else
      var n := |text| - 1;
      if !IsDigit(text[n]) then None else
        match ParseDigits(text[..n])
        case None => None
        case Some(high) => Some(high * 10 + (text[n] as int - '0' as int))
  }

  /** A whole number with an optional sign. */
  function ParseInt(text: string): Option<int> {
    var signed := text != "" && (text[0] == '+' || text[0] == '-');
    var digits := if signed then text[1..] else text;
    if digits == "" then None else
      match ParseDigits(digits)
      case None => None
      case Some(n) =>
        var value: int := n;
        Some(if signed && text[0] == '-' then -value else value)
  }

  /** A whole number of a signed type. */
  function ParseSigned(text: string, min: int, max: int): Option<int> {
    match ParseInt(text)
    case Some(n) => if min <= n <= max then Some(n) else None
    case None => None
  }

  /** A whole number of an unsigned type, which takes no minus sign. */
  function ParseUnsigned(text: string, max: nat): Option<nat> {
    if text != "" && text[0] == '-' then None else
      match ParseInt(text)
      case Some(n) => if 0 <= n <= max then Some(n as nat) else None
      case None => None
  }

  lemma {:induction false} ParseDecimal(n: nat)
    ensures Decimal(n) != "" && IsDigit(Decimal(n)[0]) && ParseDigits(Decimal(n)) == Some(n)
    ensures forall i :: 0 <= i < |Decimal(n)| ==> IsDigit(Decimal(n)[i])
  {
    if n < 10 {
      assert Decimal(n)[..0] == "";
    } else {
      ParseDecimal(n / 10);
      var t := Decimal(n);
      assert t[..|t| - 1] == Decimal(n / 10) && t[|t| - 1] == DigitOf(n % 10);
    }
  }
}
