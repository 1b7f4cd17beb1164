/** Identity names (internal/identity): bijective base-26 numerals over 'a'..'z'. */
module Identity {
  import opened Wrappers

  const MAX_INT: int := 0x7fff_ffff_ffff_ffff

  datatype NameError = NotLowercase | TooLong

  predicate IsLetter(c: char) { 'a' <= c <= 'z' }

  ghost predicate IsLowercase(s: string) {
    forall i :: 0 <= i < |s| ==> IsLetter(s[i])
  }

  function Digit(c: char): (d: int)
    requires IsLetter(c)
    ensures 1 <= d <= 26
  {
    c as int - 'a' as int + 1
  }

  function Letter(d: int): (c: char)
    requires 1 <= d <= 26
    ensures IsLetter(c) && Digit(c) == d
  {
    ('a' as int + d - 1) as char
  }

  /** The bijective base-26 value of a lowercase string; "" is 0, "a" is 1, "aa" is 27. */
  ghost function Value(s: string): nat
    requires IsLowercase(s)
  {
    if s == "" then 0
    else Value(s[..|s| - 1]) * 26 + Digit(s[|s| - 1])
  }

  /** Length first, then alphabetical. */
  ghost predicate Before(s: string, t: string) {
    |s| < |t| || (|s| == |t| && exists k :: 0 <= k < |s| && s[..k] == t[..k] && s[k] < t[k])
  }

  /** A string of n letters has a value in [Low(n), Low(n + 1)). */
  ghost function Low(n: nat): nat {
    if n == 0 then 0 else 26 * Low(n - 1) + 1
  }

  lemma {:induction false} ValueBounds(s: string)
    requires IsLowercase(s)
    ensures Low(|s|) <= Value(s) < Low(|s| + 1)
  {
    if s != "" {
      ValueBounds(s[..|s| - 1]);
    }
  }

  lemma {:induction false} LowMonotone(m: nat, n: nat)
    requires m <= n
    ensures Low(m) <= Low(n)
  {
    if m < n {
      LowMonotone(m, n - 1);
    }
  }

  /** The value order is exactly the length-then-alphabetical order. */
  lemma {:induction false} ValueIncreasing(s: string, t: string)
    requires IsLowercase(s) && IsLowercase(t)
    requires Before(s, t)
    ensures Value(s) < Value(t)
  {
    if |s| < |t| {
      ValueBounds(s);
      ValueBounds(t);
      LowMonotone(|s| + 1, |t|);
    } else {
      var k :| 0 <= k < |s| && s[..k] == t[..k] && s[k] < t[k];
      var last := |s| - 1;
      var u, v := s[..last], t[..last];
      if k < last {
        assert u[..k] == s[..k] == t[..k] == v[..k] && u[k] < v[k];
        ValueIncreasing(u, v);
      }
    }
  }

  /** Any two different lowercase strings are ordered one way or the other. */
  lemma {:induction false} BeforeTotal(s: string, t: string)
    requires s != t
    ensures Before(s, t) || Before(t, s)
  {
    if |s| == |t| {
      var k := 0;
      while k < |s| && s[k] == t[k]
        invariant 0 <= k <= |s| && s[..k] == t[..k]
      {
        k := k + 1;
      }
      assert k < |s|;
      assert t[..k] == s[..k];
      assert s[k] < t[k] || t[k] < s[k];
    }
  }

  lemma {:induction false} ValueInjective(s: string, t: string)
    requires IsLowercase(s) && IsLowercase(t) && Value(s) == Value(t)
    ensures s == t
  {
    if s != t {
      BeforeTotal(s, t);
      if Before(s, t) { ValueIncreasing(s, t); } else { ValueIncreasing(t, s); }
    }
  }

  /** The name of an index: the one lowercase string whose value is index + 1. */
  ghost function NameOf(index: nat): (s: string)
    ensures s != "" && IsLowercase(s) && Value(s) == index + 1
  {
    var head := if index < 26 then "" else NameOf(index / 26 - 1);
    NameStep(index, head);
    head + [Letter(index % 26 + 1)]
  }

  lemma {:induction false} NameStep(index: nat, head: string)
    requires IsLowercase(head) && Value(head) == index / 26
    ensures IsLowercase(head + [Letter(index % 26 + 1)]) && Value(head + [Letter(index % 26 + 1)]) == index + 1
  {
    ValueAppend(head, Letter(index % 26 + 1));
  }

  lemma {:induction false} ValueAppend(head: string, c: char)
    requires IsLowercase(head) && IsLetter(c)
    ensures IsLowercase(head + [c]) && Value(head + [c]) == Value(head) * 26 + Digit(c)
  {
    assert (head + [c])[..|head|] == head;
  }

  /** What parsing a name answers, with no reference to the loop that computes it. */
  ghost function IndexOf(name: string): Result<nat, NameError> {
    if name == "" || !IsLowercase(name) then Err(NotLowercase)
    else if Value(name) > MAX_INT then Err(TooLong)
    else Ok(Value(name) - 1)
  }

  /** Name and Index are mutually inverse: every index in range round-trips, and every
      accepted string is the name of the index it yields. */
  lemma {:induction false} NameIndexInverse(index: nat, name: string)
    ensures index < MAX_INT ==> IndexOf(NameOf(index)) == Ok(index)
    ensures IndexOf(name).Ok? ==> NameOf(IndexOf(name).value) == name
  {
    if IndexOf(name).Ok? {
      ValueInjective(NameOf(IndexOf(name).value), name);
    }
  }

  /** Later indexes get later names, in length-then-alphabetical order. */
  lemma {:induction false} NamesIncreasing(i: nat, j: nat)
    ensures i < j <==> Before(NameOf(i), NameOf(j))
  {
    if NameOf(i) != NameOf(j) {
      BeforeTotal(NameOf(i), NameOf(j));
    }
    if Before(NameOf(i), NameOf(j)) { ValueIncreasing(NameOf(i), NameOf(j)); }
    if Before(NameOf(j), NameOf(i)) { ValueIncreasing(NameOf(j), NameOf(i)); }
  }

  lemma {:induction false} ValuePrefixMonotone(s: string, k: nat)
    requires IsLowercase(s) && k <= |s|
    ensures Value(s[..k]) <= Value(s)
    decreases |s|
  {
    if k < |s| {
      ValuePrefixMonotone(s[..|s| - 1], k);
      assert s[..|s| - 1][..k] == s[..k];
    } else {
      assert s[..k] == s;
    }
  }

  /** The source's loop: prepend letters until the remaining index goes negative. */
  method Name(index: nat) returns (name: string)
    ensures name == NameOf(index)
  {
    var rest: int := index;
    name := "";
    while true
      invariant rest >= 0
      invariant NameOf(index) == NameOf(rest) + name
      decreases rest
    {
      name := [Letter(rest % 26 + 1)] + name;
      var next := rest / 26 - 1;
      // Go divides toward zero: 0 / 26 - 1 is the only way below zero.
      if next < 0 {
        return;
      }
      rest := next;
    }
  }

  /** The source's loop: accumulate digits, rejecting a step that would overflow an int64. */
  method Index(name: string) returns (r: Result<nat, NameError>)
    ensures r.Ok? <==> name != "" && IsLowercase(name) && Value(name) <= MAX_INT
    ensures r.Ok? ==> r == IndexOf(name)
    ensures name == "" ==> r == Err(NotLowercase)
    ensures name != "" && IsLowercase(name) ==> r == IndexOf(name)
  {
    if name == "" {
      return Err(NotLowercase);
    }
    var index: int := 0;
    for i := 0 to |name|
      invariant IsLowercase(name[..i])
      invariant index == Value(name[..i]) <= MAX_INT
    {
      if !IsLetter(name[i]) {
        assert !IsLowercase(name);
        return Err(NotLowercase);
      }
      var value := Digit(name[i]);
      assert name[..i + 1][..i] == name[..i];
      if index > (MAX_INT - value) / 26 {
        if IsLowercase(name) {
          ValuePrefixMonotone(name, i + 1);
        }
        return Err(TooLong);
      }
      index := index * 26 + value;
    }
    assert name[..|name|] == name;
    return Ok(index - 1);
  }
}
