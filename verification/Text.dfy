/** Joining, splitting and number formatting, as used for keys and canonical records. */
module Text {

  // ---------- decimal numbers ----------

  function Digit(d: nat): char
    requires d < 10
  {
    '0' + d as char
  }

  function Decimal(n: nat): (s: string)
    ensures s != []
    ensures forall i :: 0 <= i < |s| ==> '0' <= s[i] <= '9'
  {
    if n < 10 then [Digit(n)] else Decimal(n / 10) + [Digit(n % 10)]
  }

  function Itoa(n: int): (s: string)
    ensures s != [] && (s[0] == '-' <==> n < 0)
    ensures forall i :: 0 <= i < |s| ==> '0' <= s[i] <= '9' || s[i] == '-'
  {
    if n < 0 then "-" + Decimal(-n) else Decimal(n)
  }

  /** The number a string of digits denotes. */
  function Value(s: string): int {
    if s == [] then 0 else 10 * Value(s[..|s| - 1]) + (s[|s| - 1] as int - '0' as int)
  }

  /** Decimal digits denote the number they print, without leading zeros. */
  lemma {:induction false} DecimalValue(n: nat)
    ensures Value(Decimal(n)) == n
    ensures n > 0 ==> Decimal(n)[0] != '0'
  {
    if n < 10 {
      assert [Digit(n)][..0] == [];
    } else {
      DecimalValue(n / 10);
      assert Decimal(n)[..|Decimal(n)| - 1] == Decimal(n / 10);
    }
  }

  lemma ItoaValue(n: int)
    ensures n >= 0 ==> Value(Itoa(n)) == n
    ensures n < 0 ==> Itoa(n)[0] == '-' && Value(Itoa(n)[1..]) == -n
  {
    DecimalValue(if n < 0 then -n else n);
  }

  lemma {:induction false} DecimalInjective(m: nat, n: nat)
    requires Decimal(m) == Decimal(n)
    ensures m == n
  {
    var s := Decimal(n);
    if m >= 10 && n >= 10 {
      assert Decimal(m / 10) == s[..|s| - 1] == Decimal(n / 10);
      assert s[|s| - 1] == Digit(m % 10) == Digit(n % 10);
      DecimalInjective(m / 10, n / 10);
    } else {
      assert s[|s| - 1] == Digit(m % 10) && s[|s| - 1] == Digit(n % 10);
    }
  }

  lemma ItoaInjective(m: int, n: int)
    requires Itoa(m) == Itoa(n)
    ensures m == n
  {
    if m < 0 && n < 0 {
      assert Itoa(m)[1..] == Decimal(-m) && Itoa(n)[1..] == Decimal(-n);
      DecimalInjective(-m, -n);
    } else if m >= 0 && n >= 0 {
      DecimalInjective(m, n);
    }
  }

  // ---------- separators ----------

  predicate Plain(s: string, sep: char) {
    sep !in s
  }

  function Split(s: string, sep: char): (parts: seq<string>)
    ensures parts != []
  {
    if s == [] then [[]]
    else
      var rest := Split(s[1..], sep);
      if s[0] == sep then [[]] + rest else [[s[0]] + rest[0]] + rest[1..]
  }

  function Join(parts: seq<string>, sep: char): string
    requires parts != []
  {
    if |parts| == 1 then parts[0] else parts[0] + [sep] + Join(parts[1..], sep)
  }

  lemma JoinCons(x: string, rest: seq<string>, sep: char)
    ensures rest != [] ==> Join([x] + rest, sep) == x + [sep] + Join(rest, sep)
    ensures rest == [] ==> Join([x] + rest, sep) == x
  {
    assert ([x] + rest)[1..] == rest;
  }

  lemma {:induction false} SplitAtSeparator(a: string, b: string, sep: char)
    ensures Split(a + [sep] + b, sep) == Split(a, sep) + Split(b, sep)
  {
    var s := a + [sep] + b;
    if a == [] {
      assert s[1..] == b;
    } else {
      assert s[1..] == a[1..] + [sep] + b;
      SplitAtSeparator(a[1..], b, sep);
    }
  }

  lemma {:induction false} SplitPlain(s: string, sep: char)
    ensures Plain(s, sep) ==> Split(s, sep) == [s]
    ensures !Plain(s, sep) ==> |Split(s, sep)| >= 2
  {
    if s == [] {
    } else {
      SplitPlain(s[1..], sep);
      assert s == [s[0]] + s[1..];
    }
  }

  /** Plain fields survive joining and splitting. */
  lemma {:induction false} SplitJoin(parts: seq<string>, sep: char)
    requires parts != [] && forall i :: 0 <= i < |parts| ==> Plain(parts[i], sep)
    ensures Split(Join(parts, sep), sep) == parts
  {
    SplitPlain(parts[0], sep);
    if |parts| <= 1 {
    } else {
      SplitJoin(parts[1..], sep);
      SplitAtSeparator(parts[0], Join(parts[1..], sep), sep);
    }
  }

  /** Joining never loses a part; it gains one for every separator inside a part. */
  lemma {:induction false} JoinCount(parts: seq<string>, sep: char)
    requires parts != []
    ensures |Split(Join(parts, sep), sep)| >= |parts|
    ensures |Split(Join(parts, sep), sep)| == |parts| ==> forall i :: 0 <= i < |parts| ==> Plain(parts[i], sep)
  {
    SplitPlain(parts[0], sep);
    if |parts| <= 1 {
    } else {
      JoinCount(parts[1..], sep);
      SplitAtSeparator(parts[0], Join(parts[1..], sep), sep);
      assert forall i :: 1 <= i < |parts| ==> parts[i] == parts[1..][i - 1];
    }
  }

  /** A joined record of plain fields is the joined record of those fields only. */
  lemma JoinInjective(parts: seq<string>, parts': seq<string>, sep: char)
    requires parts != [] && |parts'| == |parts| && Join(parts, sep) == Join(parts', sep)
    requires forall i :: 0 <= i < |parts| ==> Plain(parts[i], sep)
    ensures parts' == parts
  {
    SplitJoin(parts, sep);
    JoinCount(parts', sep);
    SplitJoin(parts', sep);
  }

  /** The parts of all fields, one after the other. */
  function Parts(fields: seq<string>, sep: char): seq<string> {
    if fields == [] then [] else Split(fields[0], sep) + Parts(fields[1..], sep)
  }

  lemma {:induction false} PartsConcat(a: seq<string>, b: seq<string>, sep: char)
    ensures Parts(a + b, sep) == Parts(a, sep) + Parts(b, sep)
  {
    if a == [] {
      assert a + b == b;
    } else {
      assert (a + b)[1..] == a[1..] + b;
      PartsConcat(a[1..], b, sep);
    }
  }

  lemma PartsOfTwo(x: string, y: string, sep: char)
    ensures Parts([x, y], sep) == Split(x, sep) + Split(y, sep)
  {
    assert [x, y][1..] == [y] && [y][1..] == [];
    assert Parts([y], sep) == Split(y, sep);
  }

  lemma {:induction false} SplitOfJoin(fields: seq<string>, sep: char)
    requires fields != []
    ensures Split(Join(fields, sep), sep) == Parts(fields, sep)
  {
    if |fields| <= 1 {
    } else {
      SplitOfJoin(fields[1..], sep);
      SplitAtSeparator(fields[0], Join(fields[1..], sep), sep);
    }
  }

  lemma {:induction false} JoinSplit(s: string, sep: char)
    ensures Join(Split(s, sep), sep) == s
  {
    if s == [] {
    } else {
      var rest := Split(s[1..], sep);
      JoinSplit(s[1..], sep);
      if s[0] == sep {
        assert ([[]] + rest)[1..] == rest;
      } else {
        assert ([[s[0]] + rest[0]] + rest[1..])[1..] == rest[1..];
      }
    }
  }

  lemma {:induction false} JoinFirst(fields: seq<string>, after: seq<string>, sep: char)
    requires fields != [] && after != []
    ensures Join([Join(fields, sep)] + after, sep) == Join(fields + after, sep)
  {
    assert ([Join(fields, sep)] + after)[1..] == after;
    assert (fields + after)[1..] == fields[1..] + after;
    if |fields| <= 1 {
    } else {
      JoinFirst(fields[1..], after, sep);
      assert ([Join(fields[1..], sep)] + after)[1..] == after;
    }
  }

  /** Joining some fields first does not change the whole. */
  lemma {:induction false} JoinNest(before: seq<string>, fields: seq<string>, after: seq<string>, sep: char)
    requires fields != []
    ensures Join(before + [Join(fields, sep)] + after, sep) == Join(before + fields + after, sep)
  {
    if before != [] {
      JoinNest(before[1..], fields, after, sep);
      assert (before + [Join(fields, sep)] + after)[1..] == before[1..] + [Join(fields, sep)] + after;
      assert (before + fields + after)[1..] == before[1..] + fields + after;
    } else if after != [] {
      JoinFirst(fields, after, sep);
      assert [] + [Join(fields, sep)] + after == [Join(fields, sep)] + after && [] + fields + after == fields + after;
    } else {
      assert [] + [Join(fields, sep)] + after == [Join(fields, sep)] && [] + fields + after == fields;
    }
  }
}
