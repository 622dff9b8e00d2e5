/** Linear searches over rows, and decimal numbers as strings. */
module Search {
  import opened Basics

  function Select<T>(s: seq<T>, p: T -> bool): seq<T> {
    if s == [] then [] else (if p(s[0]) then [s[0]] else []) + Select(s[1..], p)
  }

  function First<T>(s: seq<T>, p: T -> bool): Option<T> {
    if s == [] then None else if p(s[0]) then Some(s[0]) else First(s[1..], p)
  }

  lemma {:induction false} SelectAppend<T>(a: seq<T>, b: seq<T>, p: T -> bool)
    ensures Select(a + b, p) == Select(a, p) + Select(b, p)
  {
    if a == [] {
      assert a + b == b;
    } else {
      SelectAppend(a[1..], b, p);
      assert a + b == [a[0]] + (a[1..] + b);
      assert (a + b)[0] == a[0] && (a + b)[1..] == a[1..] + b;
      Assoc(if p(a[0]) then [a[0]] else [], Select(a[1..], p), Select(b, p));
    }
  }

  lemma {:induction false} SelectMember<T>(s: seq<T>, p: T -> bool, x: T)
    ensures x in Select(s, p) <==> x in s && p(x)
  {
    if s != [] {
      SelectMember(s[1..], p, x);
      assert x in s <==> x == s[0] || x in s[1..];
    }
  }

  /** A selection of one row is the only row selected. */
  lemma SelectUnique<T>(s: seq<T>, p: T -> bool, x: T)
    requires |Select(s, p)| == 1 && x in s && p(x)
    ensures Select(s, p)[0] == x
  {
    SelectMember(s, p, x);
  }

  lemma {:induction false} FirstMember<T>(s: seq<T>, p: T -> bool)
    ensures First(s, p).Some? ==> First(s, p).value in s && p(First(s, p).value)
    ensures First(s, p).None? ==> forall x :: x in s ==> !p(x)
  {
    if s != [] {
      FirstMember(s[1..], p);
      assert forall x :: x in s ==> x == s[0] || x in s[1..];
    }
  }

  /** Rows outside a selection that holds every hit do not matter to a search. */
  lemma {:induction false} FirstInSelect<T>(s: seq<T>, p: T -> bool, q: T -> bool)
    requires forall x :: x in s && p(x) ==> q(x)
    ensures First(Select(s, q), p) == First(s, p)
  {
    if s != [] {
      assert s[0] in s;
      FirstInSelect(s[1..], p, q);
      if q(s[0]) {
        assert Select(s, q)[1..] == Select(s[1..], q);
      } else {
        assert Select(s, q) == Select(s[1..], q);
      }
    }
  }

  // ---- decimal numbers ----

  function Digit(n: nat): char
    requires n < 10
  {
    ('0' as int + n) as char
  }

  function DigitValue(c: char): Option<nat> {
    if '0' <= c <= '9' then Some(c as int - '0' as int) else None
  }

  function NatString(n: nat): (s: string)
    ensures s != ""
  {
    if n < 10 then [Digit(n)] else NatString(n / 10) + [Digit(n % 10)]
  }

  /** fmt's %d. */
  function Itoa(n: int): string {
    if n < 0 then "-" + NatString(-n) else NatString(n)
  }

  function ParseDigits(s: string): Option<nat> {
    if s == "" then Some(0)
    else
      match ParseDigits(s[..|s| - 1])
      case None => None
      case Some(v) =>
        match DigitValue(s[|s| - 1])
        case None => None
        case Some(d) => Some(10 * v + d)
  }

  /** strconv.Atoi, without its range check: an optional sign and at least one digit. */
  function Atoi(s: string): Option<int> {
    var digits := if s != "" && (s[0] == '-' || s[0] == '+') then s[1..] else s;
    if digits == "" then None
    else
      match ParseDigits(digits)
      case None => None
      case Some(v) => if s[0] == '-' then Some(-(v as int)) else Some(v as int)
  }

  lemma {:induction false} ParseNatString(n: nat)
    ensures ParseDigits(NatString(n)) == Some(n)
    ensures forall i :: 0 <= i < |NatString(n)| ==> '0' <= NatString(n)[i] <= '9'
  {
    var s := NatString(n);
    if n < 10 {
      assert s[..0] == "";
      assert ParseDigits("") == Some(0);
    } else {
      ParseNatString(n / 10);
      assert s[..|s| - 1] == NatString(n / 10);
    }
  }

  lemma AtoiOfItoa(n: int)
    ensures Atoi(Itoa(n)) == Some(n)
  {
    ParseNatString(if n < 0 then -n else n);
    if n < 0 {
      assert Itoa(n)[1..] == NatString(-n);
    }
  }

  lemma DecimalDigits()
    ensures Itoa(7) == "7" && Itoa(42) == "42" && Itoa(-3) == "-3"
    ensures Atoi("42") == Some(42) && Atoi("+07") == Some(7) && Atoi("") == None && Atoi("4x") == None
  {
    assert NatString(42) == NatString(4) + [Digit(2)];
    assert "42"[..1] == "4" && "4"[..0] == "" && "4x"[..1] == "4";
    assert ParseDigits("4") == Some(4);
    assert "+07"[1..] == "07" && "07"[..1] == "0" && "0"[..0] == "";
    assert ParseDigits("0") == Some(0);
  }
}
