/** What comparing two values means, read off the values themselves, and that the engine's partial order
    is that. */
module ValueOrder {
  import opened Wrappers
  import opened Storage

  /** At the first difference the smaller character, or a proper prefix. */
  ghost predicate StringBefore(a: string, b: string) {
    exists k: nat :: DiffersAt(a, b, k)
  }

  predicate DiffersAt(a: string, b: string, k: nat) {
    && k <= |a| && k < |b| && a[..k] == b[..k]
    && (k == |a| || a[k] < b[k])
  }

  /** The place of a value on the number line; none for NaN and for what is no number. */
  function Place(v: Value): Option<int> {
    match v
    case Float(f) => IEEE754.rank(f)
    case Int(i) => IEEE754.rank(IEEE754.ofInt(i))
    case _ => None
  }

  /** Two integers are compared exactly, other numbers as floats, everything else within its kind only. */
  ghost predicate Before(v: Value, w: Value) {
    || (v.Int? && w.Int? && v.i < w.i)
    || ((v.Float? || w.Float?) && Place(v).Some? && Place(w).Some? && Place(v).value < Place(w).value)
    || (v.Varchar? && w.Varchar? && StringBefore(v.s, w.s))
    || (v == Bool(false) && w == Bool(true))
  }

  predicate Alike(v: Value, w: Value) {
    || (v == w && !v.Float?)
    || ((v.Float? || w.Float?) && Place(v).Some? && Place(v) == Place(w))
  }

  lemma DiffersTail(a: string, b: string, k: nat)
    requires a != "" && b != "" && a[0] == b[0]
    ensures DiffersAt(a, b, k + 1) <==> DiffersAt(a[1..], b[1..], k)
  {
    if k + 1 <= |a| && k + 1 < |b| {
      assert a[..k + 1] == [a[0]] + a[1..][..k] && b[..k + 1] == [b[0]] + b[1..][..k];
      assert a[..k + 1][1..] == a[1..][..k] && b[..k + 1][1..] == b[1..][..k];
    }
  }

  lemma SameStart(a: string, b: string, k: nat)
    requires DiffersAt(a, b, k) && a != ""
    ensures k > 0 ==> a[0] == b[0]
  {
    assert k > 0 ==> a[..k][0] == b[..k][0];
  }

  lemma {:induction false} StringsCompare(a: string, b: string)
    ensures CompareStrings(a, b) == Less <==> StringBefore(a, b)
    decreases |a|
  {
    if a == "" {
      if b != "" {
        assert DiffersAt(a, b, 0);
      }
    } else if b != "" {
      if a[0] == b[0] {
        StringsCompare(a[1..], b[1..]);
        if StringBefore(a[1..], b[1..]) {
          var k: nat :| DiffersAt(a[1..], b[1..], k);
          DiffersTail(a, b, k);
        }
        if StringBefore(a, b) {
          var k: nat :| DiffersAt(a, b, k);
          assert k > 0;
          DiffersTail(a, b, k - 1);
        }
      } else {
        assert a[0] < b[0] ==> DiffersAt(a, b, 0);
        if StringBefore(a, b) {
          var k: nat :| DiffersAt(a, b, k);
          SameStart(a, b, k);
        }
      }
    }
  }

  /** The engine's partial order says Less, Equal and Greater exactly where the values are so. */
  lemma PartialCmpIs(v: Value, w: Value)
    ensures v.PartialCmp(w) == Some(Less) <==> Before(v, w)
    ensures v.PartialCmp(w) == Some(Equal) <==> Alike(v, w)
    ensures v.PartialCmp(w) == Some(Greater) <==> Before(w, v)
    ensures v.Equals(w) <==> Alike(v, w)
  {
    EqualsIsCmpEqual(v, w);
    if v.Varchar? && w.Varchar? {
      StringsCompare(v.s, w.s);
      StringsCompare(w.s, v.s);
      CompareStringsReverse(v.s, w.s);
      CompareStringsEqual(v.s, w.s);
    }
  }

  /** One comparable kind: two NULLs, two integers, two floats that are numbers, two strings, two Booleans. */
  predicate OneKind(v: Value, w: Value) {
    || (v.Null? && w.Null?)
    || (v.Int? && w.Int?)
    || (v.Float? && w.Float? && Place(v).Some? && Place(w).Some?)
    || (v.Varchar? && w.Varchar?)
    || (v.Bool? && w.Bool?)
  }

  lemma BeforeOrAlike(v: Value, w: Value)
    requires OneKind(v, w)
    ensures Before(v, w) || Alike(v, w) || Before(w, v)
  {
    hide Before, Alike;
    PartialCmpIs(v, w);
    assert v.PartialCmp(w).Some?;
    var ord := v.PartialCmp(w).value;
    assert ord == Less || ord == Equal || ord == Greater;
  }

  lemma NotBeforeTransitive(u: Value, v: Value, w: Value)
    requires OneKind(u, v) && OneKind(v, w)
    requires !Before(v, u) && !Before(w, v)
    ensures OneKind(u, w) && !Before(w, u)
  {
    hide StringBefore;
    if u.Varchar? {
      PartialCmpIs(u, v);
      PartialCmpIs(v, w);
      PartialCmpIs(u, w);
      CompareStringsTransitive(u.s, v.s, w.s);
    }
  }
}
