/** A score record is a list of fields; the leading `scoringFields` of them
    form its score key. Fields compare the way Python 2 compares them. */
module Records {
  import opened Lex

  /** A record field: an integer score or a text payload such as a name. */
  datatype Field = Num(n: int) | Text(s: string)

  type Record = seq<Field>

  function CharLess(a: char, b: char): bool { a < b }

  /** Python 2 field order: integers numerically, every integer below every
      string, strings lexicographically by character code. */
  function FieldLess(x: Field, y: Field): bool {
    match (x, y)
    case (Num(i), Num(j)) => i < j
    case (Num(_), Text(_)) => true
    case (Text(_), Num(_)) => false
    case (Text(s), Text(t)) => LexLess(s, t, CharLess)
  }

  /** Python's `a < b` on two records. */
  function RecordLess(a: Record, b: Record): bool {
    LexLess(a, b, FieldLess)
  }

  /** `a` ranks at or above `b`: `a >= b` in Python. */
  predicate AtLeast(a: Record, b: Record) {
    a == b || RecordLess(b, a)
  }

  /** The score key `r[0:scoringFields]`. */
  function Key(r: Record, f: nat): Record {
    Prefix(r, f)
  }

  lemma FieldOrder()
    ensures StrictTotalOrder(FieldLess)
  {
    assert StrictTotalOrder(CharLess);
    forall x: Field
      ensures !FieldLess(x, x)
    {
      if x.Text? {
        LexIrreflexive(x.s, CharLess);
      }
    }
    forall x: Field, y: Field, z: Field | FieldLess(x, y) && FieldLess(y, z)
      ensures FieldLess(x, z)
    {
      if x.Text? {
        LexTransitive(x.s, y.s, z.s, CharLess);
      }
    }
    forall x: Field, y: Field | x != y
      ensures FieldLess(x, y) || FieldLess(y, x)
    {
      if x.Text? && y.Text? {
        LexTotal(x.s, y.s, CharLess);
      }
    }
  }

  lemma RecordLessIrreflexive(a: Record)
    ensures !RecordLess(a, a)
  {
    FieldOrder();
    LexIrreflexive(a, FieldLess);
  }

  lemma AtLeastTransitive(a: Record, b: Record, c: Record)
    requires AtLeast(a, b) && AtLeast(b, c)
    ensures AtLeast(a, c)
  {
    if a != b && b != c {
      FieldOrder();
      LexTransitive(c, b, a, FieldLess);
    }
  }

  lemma AtLeastAntisymmetric(a: Record, b: Record)
    requires AtLeast(a, b) && AtLeast(b, a)
    ensures a == b
  {
    if a != b {
      FieldOrder();
      LexTransitive(a, b, a, FieldLess);
      LexIrreflexive(a, FieldLess);
    }
  }

  lemma AtLeastTotal(a: Record, b: Record)
    ensures AtLeast(a, b) || AtLeast(b, a)
  {
    if a != b {
      FieldOrder();
      LexTotal(a, b, FieldLess);
    }
  }

  /** A strict drop in the middle of a descending chain makes its ends differ. */
  lemma StrictChain(a: Record, b: Record, c: Record, d: Record)
    requires AtLeast(a, b) && RecordLess(c, b) && AtLeast(c, d)
    ensures RecordLess(d, a)
    ensures d != a
  {
    FieldOrder();
    if a != b {
      LexTransitive(c, b, a, FieldLess);
    }
    if c != d {
      LexTransitive(d, c, a, FieldLess);
    }
    LexIrreflexive(a, FieldLess);
  }

  /** A bound at or past the record's length keeps every field: this is how
      `scoringFields = None` (all fields relevant) is modelled. */
  lemma KeyWholeRecord(r: Record, f: nat)
    requires f >= |r|
    ensures Key(r, f) == r
  {
  }

  /** Ranking whole records ranks their score keys the same way. */
  lemma KeyMonotone(a: Record, b: Record, f: nat)
    requires AtLeast(a, b)
    ensures AtLeast(Key(a, f), Key(b, f))
  {
    if a != b {
      LexPrefix(b, a, f, FieldLess);
    }
  }
}
