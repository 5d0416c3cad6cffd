/** The orders pandas applies when it sorts rows and when it orders groups:
    Python's string comparison, tuple comparison, and `sort_values` on cells
    that may be missing. */
module Order {

  /** Python's `a < b` on str: lexicographic by code point, a proper prefix first. */
  predicate StrLt(a: string, b: string)
    decreases |a|
  {
    |b| > 0 && (|a| == 0 || a[0] < b[0] || (a[0] == b[0] && StrLt(a[1..], b[1..])))
  }

  lemma {:induction false} StrLtIrreflexive(a: string)
    ensures !StrLt(a, a)
    decreases |a|
  {
    if |a| > 0 {
      StrLtIrreflexive(a[1..]);
    }
  }

  lemma {:induction false} StrLtTrichotomy(a: string, b: string)
    ensures a == b || StrLt(a, b) || StrLt(b, a)
    decreases |a|
  {
    if |a| > 0 && |b| > 0 && a[0] == b[0] {
      StrLtTrichotomy(a[1..], b[1..]);
      if a[1..] == b[1..] {
        assert a == [a[0]] + a[1..] && b == [b[0]] + b[1..];
      }
    }
  }

  lemma {:induction false} StrLtTransitive(a: string, b: string, c: string)
    ensures StrLt(a, b) && StrLt(b, c) ==> StrLt(a, c)
    decreases |a|
  {
    if |a| > 0 && |b| > 0 && |c| > 0 && a[0] == b[0] && b[0] == c[0] {
      StrLtTransitive(a[1..], b[1..], c[1..]);
    }
  }

  lemma StrLtAsymmetric(a: string, b: string)
    ensures StrLt(a, b) ==> !StrLt(b, a)
  {
    StrLtTransitive(a, b, a);
    StrLtIrreflexive(a);
  }

  /** Python's `a < b` on tuples of strings (the keys of a multi-column groupby). */
  predicate TupleLt(a: seq<string>, b: seq<string>)
    decreases |a|
  {
    |b| > 0 && (|a| == 0 || StrLt(a[0], b[0]) || (a[0] == b[0] && TupleLt(a[1..], b[1..])))
  }

  lemma {:induction false} TupleLtIrreflexive(a: seq<string>)
    ensures !TupleLt(a, a)
    decreases |a|
  {
    if |a| > 0 {
      StrLtIrreflexive(a[0]);
      TupleLtIrreflexive(a[1..]);
    }
  }

  lemma {:induction false} TupleLtTrichotomy(a: seq<string>, b: seq<string>)
    ensures a == b || TupleLt(a, b) || TupleLt(b, a)
    decreases |a|
  {
    if |a| > 0 && |b| > 0 {
      StrLtTrichotomy(a[0], b[0]);
      if a[0] == b[0] {
        TupleLtTrichotomy(a[1..], b[1..]);
        if a[1..] == b[1..] {
          assert a == [a[0]] + a[1..] && b == [b[0]] + b[1..];
        }
      }
    }
  }

  lemma {:induction false} TupleLtTransitive(a: seq<string>, b: seq<string>, c: seq<string>)
    ensures TupleLt(a, b) && TupleLt(b, c) ==> TupleLt(a, c)
    decreases |a|
  {
    if |a| > 0 && |b| > 0 && |c| > 0 {
      StrLtTransitive(a[0], b[0], c[0]);
      TupleLtTransitive(a[1..], b[1..], c[1..]);
    }
  }

  /** One cell of a sort key as `sort_values` sees it: text, a parsed date-time
      (an abstract instant), or a missing value (NaN / NaT). */
  datatype Cell = Text(s: string) | Instant(t: int) | Missing

  /** The order `sort_values(na_position='last')` puts cells in: missing values
      last, text by Python string order, instants by time. Text and instants
      never share a column; the order between them is fixed only to make it total. */
  predicate CellLe(a: Cell, b: Cell)
  {
    match (a, b)
    case (_, Missing) => true
    case (Missing, _) => false
    case (Text(x), Text(y)) => !StrLt(y, x)
    case (Instant(x), Instant(y)) => x <= y
    case (Text(_), Instant(_)) => true
    case (Instant(_), Text(_)) => false
  }

  lemma CellLeTotal(a: Cell, b: Cell)
    ensures CellLe(a, b) || CellLe(b, a)
  {
    if a.Text? && b.Text? {
      StrLtAsymmetric(a.s, b.s);
    }
  }

  lemma CellLeAntisymmetric(a: Cell, b: Cell)
    ensures CellLe(a, b) && CellLe(b, a) ==> a == b
  {
    if a.Text? && b.Text? {
      StrLtTrichotomy(a.s, b.s);
    }
  }

  lemma CellLeTransitive(a: Cell, b: Cell, c: Cell)
    ensures CellLe(a, b) && CellLe(b, c) ==> CellLe(a, c)
  {
    if a.Text? && b.Text? && c.Text? {
      StrLtTrichotomy(a.s, b.s);
      StrLtTransitive(c.s, a.s, b.s);
    }
  }

  /** Multi-column `sort_values`: the first column decides, later columns break ties. */
  predicate KeyLe(a: seq<Cell>, b: seq<Cell>)
    decreases |a|
  {
    |a| == 0 || (|b| > 0 && (if a[0] == b[0] then KeyLe(a[1..], b[1..]) else CellLe(a[0], b[0])))
  }

  lemma {:induction false} KeyLeTotal(a: seq<Cell>, b: seq<Cell>)
    ensures KeyLe(a, b) || KeyLe(b, a)
    decreases |a|
  {
    if |a| > 0 && |b| > 0 {
      CellLeTotal(a[0], b[0]);
      KeyLeTotal(a[1..], b[1..]);
    }
  }

  lemma {:induction false} KeyLeTransitive(a: seq<Cell>, b: seq<Cell>, c: seq<Cell>)
    ensures KeyLe(a, b) && KeyLe(b, c) ==> KeyLe(a, c)
    decreases |a|
  {
    if |a| > 0 && |b| > 0 && |c| > 0 {
      KeyLeTransitive(a[1..], b[1..], c[1..]);
      CellLeAntisymmetric(a[0], b[0]);
      CellLeTransitive(a[0], b[0], c[0]);
    }
  }
}
