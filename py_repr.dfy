/** The text Python's `str()` gives for ints, int tuples and keys, and the
    `eval` of that text back into a tuple (the canonical forms only). */
module PyRepr {
  import opened PyTypes

  predicate IsDigit(c: char) { '0' <= c <= '9' }

  function DigitChar(d: nat): (c: char)
    requires d < 10
    ensures IsDigit(c) && c as int - '0' as int == d
  {
    ('0' as int + d) as char
  }

  /** Decimal text of a natural number, without leading zeros. */
  function NatRepr(n: nat): (s: string)
    ensures |s| >= 1
    ensures forall i :: 0 <= i < |s| ==> IsDigit(s[i])
    ensures s[0] == '0' <==> n == 0
    ensures n == 0 ==> s == "0"
    decreases n
  {
    if n < 10 then [DigitChar(n)] else NatRepr(n / 10) + [DigitChar(n % 10)]
  }

  /** `str(i)` for a Python int. */
  function IntRepr(i: int): (s: string)
    ensures |s| >= 1
    ensures forall k :: 0 <= k < |s| ==> IsDigit(s[k]) || s[k] == '-'
  {
    if i < 0 then "-" + NatRepr(-i) else NatRepr(i)
  }

  /** The items of a tuple of at least two ints, separated by ", ". */
  function ItemsRepr(t: seq<int>): string
    requires |t| >= 1
    decreases |t|
  {
    if |t| == 1 then IntRepr(t[0]) else IntRepr(t[0]) + ", " + ItemsRepr(t[1..])
  }

  /** `str(t)` for a Python tuple of ints: "()", "(5,)", "(1, 2)". */
  function TupleRepr(t: seq<int>): string {
    if |t| == 0 then "()"
    else if |t| == 1 then "(" + IntRepr(t[0]) + ",)"
    else "(" + ItemsRepr(t) + ")"
  }

  /** `str(key)` for the keys the stores accept or reject. */
  function Str(k: Key): string {
    match k
    case KStr(s) => s
    case KTuple(t) => TupleRepr(t)
    case KInt(i) => IntRepr(i)
    case KBool(b) => if b then "True" else "False"
    case KOther(r) => r
  }

  predicate AllDigits(s: string) {
    forall i :: 0 <= i < |s| ==> IsDigit(s[i])
  }

  /** The value of a string of decimal digits. */
  function DigitsValue(s: string): nat
    requires AllDigits(s)
    decreases |s|
  {
    if s == [] then 0
    else DigitsValue(s[..|s| - 1]) * 10 + (s[|s| - 1] as int - '0' as int)
  }

  /** A decimal natural literal as Python reads it: digits, no leading zero. */
  function ParseNat(s: string): Option<nat> {
    if s == [] || !AllDigits(s) || (|s| > 1 && s[0] == '0') then None
    else Some(DigitsValue(s))
  }

  function ParseInt(s: string): Option<int> {
    if |s| > 0 && s[0] == '-' then
      match ParseNat(s[1..])
      case Some(n) => Some(0 - n as int)
      case None => None
    else
      match ParseNat(s)
      case Some(n) => Some(n)
      case None => None
  }

  /** Index of the first `c` in `s`, or `|s|` when there is none. */
  function IndexOf(s: string, c: char): (k: nat)
    ensures k <= |s|
    ensures k < |s| ==> s[k] == c
    ensures forall i :: 0 <= i < k ==> s[i] != c
  {
    if s == [] then 0 else if s[0] == c then 0 else 1 + IndexOf(s[1..], c)
  }

  function ParseItems(s: string): Option<seq<int>>
    decreases |s|
  {
    var k := IndexOf(s, ',');
    if k == |s| then
      match ParseInt(s)
      case Some(i) => Some([i])
      case None => None
    else if k + 1 < |s| && s[k + 1] == ' ' then
      match ParseInt(s[..k])
      case None => None
      case Some(i) =>
        match ParseItems(s[k + 2..])
        case None => None
        case Some(rest) => Some([i] + rest)
    else None
  }

  /** `eval(text)` where the text is an int tuple in the canonical form
      `str()` writes; every other text is reported as a SyntaxError. */
  function ParseTuple(s: string): Option<seq<int>> {
    if |s| < 2 || s[0] != '(' || s[|s| - 1] != ')' then None
    else
      var inner := s[1..|s| - 1];
      if inner == [] then Some([])
      else if inner[|inner| - 1] == ',' then
        match ParseInt(inner[..|inner| - 1])
        case Some(i) => Some([i])
        case None => None
      else
        match ParseItems(inner)
        case Some(t) => if |t| >= 2 then Some(t) else None
        case None => None
  }

  lemma {:induction false} DigitsValueOfNatRepr(n: nat)
    ensures DigitsValue(NatRepr(n)) == n
    decreases n
  {
    if n >= 10 {
      var s := NatRepr(n / 10);
      DigitsValueOfNatRepr(n / 10);
      assert NatRepr(n) == s + [DigitChar(n % 10)];
      assert (s + [DigitChar(n % 10)])[..|s|] == s;
    }
  }

  lemma {:induction false} NatRoundTrip(n: nat)
    ensures ParseNat(NatRepr(n)) == Some(n)
  {
    DigitsValueOfNatRepr(n);
  }

  /** Reading back the decimal text of any int gives that int. */
  lemma {:induction false} IntRoundTrip(i: int)
    ensures ParseInt(IntRepr(i)) == Some(i)
  {
    if i < 0 {
      NatRoundTrip(-i);
      assert ("-" + NatRepr(-i))[1..] == NatRepr(-i);
    } else {
      NatRoundTrip(i);
    }
  }

  lemma IndexOfAfter(a: string, b: string, c: char)
    requires forall i :: 0 <= i < |a| ==> a[i] != c
    requires |b| > 0 && b[0] == c
    ensures IndexOf(a + b, c) == |a|
    decreases |a|
  {
    if a != [] {
      assert (a + b)[1..] == a[1..] + b;
      IndexOfAfter(a[1..], b, c);
    }
  }

  /** One item, then ", ", then the text of the others. */
  lemma ParseItemsCons(head: string, rest: string, x: int, xs: seq<int>)
    requires ParseInt(head) == Some(x) && ParseItems(rest) == Some(xs)
    requires forall i :: 0 <= i < |head| ==> head[i] != ','
    ensures ParseItems(head + ", " + rest) == Some([x] + xs)
  {
    var s := head + ", " + rest;
    assert s == head + (", " + rest);
    IndexOfAfter(head, ", " + rest, ',');
    assert s[..|head|] == head;
    assert s[|head| + 2..] == rest;
  }

  /** A single item, with no comma in it. */
  lemma ParseItemsSingle(head: string, x: int)
    requires ParseInt(head) == Some(x)
    requires forall i :: 0 <= i < |head| ==> head[i] != ','
    ensures ParseItems(head) == Some([x])
  {
    assert IndexOf(head, ',') == |head|;
  }

  lemma {:induction false} ItemsRoundTrip(t: seq<int>)
    requires |t| >= 1
    ensures ParseItems(ItemsRepr(t)) == Some(t)
    ensures ItemsRepr(t)[|ItemsRepr(t)| - 1] != ','
    decreases |t|
  {
    var head := IntRepr(t[0]);
    IntRoundTrip(t[0]);
    if |t| == 1 {
      ParseItemsSingle(head, t[0]);
      assert t == [t[0]];
    } else {
      var rest := ItemsRepr(t[1..]);
      ItemsRoundTrip(t[1..]);
      ParseItemsCons(head, rest, t[0], t[1..]);
      assert [t[0]] + t[1..] == t;
      assert ItemsRepr(t) == head + ", " + rest;
      assert ItemsRepr(t)[|ItemsRepr(t)| - 1] == rest[|rest| - 1];
    }
  }

  lemma TupleRoundTripOne(t: seq<int>)
    requires |t| == 1
    ensures ParseTuple(TupleRepr(t)) == Some(t)
  {
    var s := TupleRepr(t);
    var inner := IntRepr(t[0]) + ",";
    assert s[1..|s| - 1] == inner;
    assert inner[..|inner| - 1] == IntRepr(t[0]);
    IntRoundTrip(t[0]);
    assert t == [t[0]];
  }

  lemma TupleRoundTripMany(t: seq<int>)
    requires |t| >= 2
    ensures ParseTuple(TupleRepr(t)) == Some(t)
  {
    var s := TupleRepr(t);
    var inner := ItemsRepr(t);
    ItemsRoundTrip(t);
    assert s == "(" + inner + ")";
    assert s[1..|s| - 1] == inner;
    assert inner != [] && inner[|inner| - 1] != ',';
  }

  /** `eval(str(t)) == t` for every int tuple: the coordinates a store
      writes as text are read back unchanged. */
  lemma {:induction false} TupleRoundTrip(t: seq<int>)
    ensures ParseTuple(TupleRepr(t)) == Some(t)
  {
    if |t| == 1 {
      TupleRoundTripOne(t);
    } else if |t| >= 2 {
      TupleRoundTripMany(t);
    }
  }

  /** The text of an int tuple is plain ASCII. */
  lemma {:induction false} TupleReprAscii(t: seq<int>)
    ensures IsAscii(TupleRepr(t))
  {
    if |t| >= 2 {
      ItemsReprAscii(t);
    }
  }

  lemma {:induction false} ItemsReprAscii(t: seq<int>)
    requires |t| >= 1
    ensures IsAscii(ItemsRepr(t))
    decreases |t|
  {
    if |t| > 1 {
      ItemsReprAscii(t[1..]);
    }
  }

  /** Distinct int tuples have distinct texts, so tuple keys never collide. */
  lemma TupleReprInjective(t: seq<int>, u: seq<int>)
    requires TupleRepr(t) == TupleRepr(u)
    ensures t == u
  {
    TupleRoundTrip(t);
    TupleRoundTrip(u);
  }
}
