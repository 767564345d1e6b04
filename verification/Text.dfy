/** Text as the commands use it: split on dashes and joined again, and decimal numbers written
    and parsed by the rules of Rust's unsigned integers. */
module Text {
  import opened Bytes

  const DASH := '-'

  /** The pieces between the dashes; a text without one is a single piece. */
  function Split(s: string): (pieces: seq<string>)
    ensures |pieces| >= 1
  {
    if s == "" then [""] else Attach(s[0], Split(s[1..]))
  }

  /** A character before the pieces: a dash opens a new piece, another one extends the first. */
  function Attach(c: char, pieces: seq<string>): (more: seq<string>)
    requires pieces != []
    ensures |more| >= 1
  {
    if c == DASH then [""] + pieces else [[c] + pieces[0]] + pieces[1..]
  }

  function Join(parts: seq<string>): string
    requires parts != []
  {
    if |parts| == 1 then parts[0] else parts[0] + [DASH] + Join(parts[1..])
  }

  lemma AttachToSum(c: char, p: seq<string>, q: seq<string>)
    requires p != []
    ensures Attach(c, p + q) == Attach(c, p) + q
  {
    assert (p + q)[1..] == p[1..] + q;
  }

  lemma {:induction false} SplitAtADash(a: string, b: string)
    ensures Split(a + [DASH] + b) == Split(a) + Split(b)
  {
    if a == "" {
      assert a + [DASH] + b == [DASH] + b;
      assert ([DASH] + b)[1..] == b;
    } else {
      SplitAtADash(a[1..], b);
      assert (a + [DASH] + b)[1..] == a[1..] + [DASH] + b;
      AttachToSum(a[0], Split(a[1..]), Split(b));
    }
  }

  lemma {:induction false} SplitWithoutDash(s: string)
    requires DASH !in s
    ensures Split(s) == [s]
  {
    if s != "" {
      SplitWithoutDash(s[1..]);
      assert [s[0]] + s[1..] == s;
    }
  }

  /** The pieces of each part, one after the other. */
  function Pieces(parts: seq<string>): seq<string> {
    if parts == [] then [] else Split(parts[0]) + Pieces(parts[1..])
  }

  lemma {:induction false} SplitOfJoin(parts: seq<string>)
    requires parts != []
    ensures Split(Join(parts)) == Pieces(parts)
  {
    if |parts| == 1 {
      assert Pieces(parts[1..]) == [];
    } else {
      SplitOfJoin(parts[1..]);
      SplitAtADash(parts[0], Join(parts[1..]));
    }
  }

  lemma {:induction false} PiecesOfSum(a: seq<string>, b: seq<string>)
    ensures Pieces(a + b) == Pieces(a) + Pieces(b)
  {
    if a == [] {
      assert a + b == b;
    } else {
      PiecesOfSum(a[1..], b);
      assert (a + b)[1..] == a[1..] + b;
    }
  }

  lemma {:induction false} PiecesWithoutDash(parts: seq<string>)
    requires forall i :: 0 <= i < |parts| ==> DASH !in parts[i]
    ensures Pieces(parts) == parts
  {
    if parts != [] {
      SplitWithoutDash(parts[0]);
      PiecesWithoutDash(parts[1..]);
    }
  }

  // ---------- decimal numbers ----------

  predicate IsDigit(c: char) { '0' <= c <= '9' }

  function DigitOf(n: nat): (c: char)
    requires n < 10
    ensures IsDigit(c) && c as int == '0' as int + n
  {
    ('0' as int + n) as char
  }

  function Decimal(n: nat): (s: string)
    ensures s != ""
    ensures forall i :: 0 <= i < |s| ==> IsDigit(s[i])
  {
    if n < 10 then [DigitOf(n)] else Decimal(n / 10) + [DigitOf(n % 10)]
  }

  /** The value of a text of digits. */
  function Value(s: string): Option<nat> {
    if s == "" then Some(0)
    else
      var last := s[|s| - 1];
      match Value(s[..|s| - 1])
      case None => None
      case Some(v) => if IsDigit(last) then Some(10 * v + (last as int - '0' as int)) else None
  }

  /** An unsigned number of at most `max`: an optional plus sign, then digits. */
  function ParseUnsigned(s: string, max: nat): Option<nat> {
    var digits := if |s| > 1 && s[0] == '+' then s[1..] else s;
    if digits == "" then None
    else match Value(digits)
      case Some(v) => if v <= max then Some(v) else None
      case None => None
  }

  lemma {:induction false} ValueOfDecimal(n: nat)
    ensures Value(Decimal(n)) == Some(n)
  {
    if n >= 10 {
      ValueOfDecimal(n / 10);
      assert Decimal(n)[..|Decimal(n)| - 1] == Decimal(n / 10);
    } else {
      assert Decimal(n)[..0] == "";
    }
  }

  /** A number written in decimal is parsed back exactly when it is in range, and holds no dash. */
  lemma DecimalRoundTrip(n: nat, max: nat)
    ensures ParseUnsigned(Decimal(n), max) == if n <= max then Some(n) else None
    ensures DASH !in Decimal(n)
  {
    ValueOfDecimal(n);
    assert IsDigit(Decimal(n)[0]);
  }

  /** One digit or more, and nothing else. */
  predicate Digits(s: string) {
    s != "" && forall i :: 0 <= i < |s| ==> IsDigit(s[i])
  }

  lemma {:induction false} DigitsHaveAValue(s: string)
    ensures Value(s).Some? <==> forall i :: 0 <= i < |s| ==> IsDigit(s[i])
    decreases |s|
  {
    if s != "" {
      DigitsHaveAValue(s[..|s| - 1]);
    }
  }

  /** A number is parsed from digits within range, a plus sign before them allowed, zeros too, and from
      nothing else. */
  lemma ParsedIff(s: string, max: nat, n: nat)
    ensures ParseUnsigned(s, max) == Some(n)
            <==> (n <= max && ((Digits(s) && Value(s) == Some(n))
                               || (s != "" && s[0] == '+' && Digits(s[1..]) && Value(s[1..]) == Some(n))))
  {
    hide Value;
    DigitsHaveAValue(s);
    if s != "" {
      DigitsHaveAValue(s[1..]);
    }
  }
}
