/** The string key of a group (src/executor.rs, make_group_key) and when it tells value lists apart. */
module GroupKey {
  import opened Wrappers
  import opened Storage

  function Tag(v: Value): string {
    match v
    case Null => "null"
    case Int(i) => "i:" + ShowInt(i)
    case Float(f) => "f:" + IEEE754.show(f)
    case Varchar(s) => "s:" + s
    case Bool(b) => "b:" + ShowBool(b)
  }

  function Tags(vals: seq<Value>): (tags: seq<string>)
    ensures |tags| == |vals| && forall i | 0 <= i < |vals| :: tags[i] == Tag(vals[i])
  {
    if vals == [] then [] else [Tag(vals[0])] + Tags(vals[1..])
  }

  function Join(parts: seq<string>): string {
    if parts == [] then ""
    else if |parts| == 1 then parts[0]
    else parts[0] + "," + Join(parts[1..])
  }

  function MakeGroupKey(vals: seq<Value>): string {
    Join(Tags(vals))
  }

  // Decimal printing can be read back.

  function ReadNat(s: string): int {
    if s == "" then 0 else 10 * ReadNat(s[..|s| - 1]) + (s[|s| - 1] as int - '0' as int)
  }

  function ReadInt(s: string): int {
    if s != "" && s[0] == '-' then -ReadNat(s[1..]) else ReadNat(s)
  }

  lemma {:induction false} ShowNatReadsBack(n: nat)
    ensures ReadNat(ShowNat(n)) == n
    ensures ShowNat(n) != ""
    ensures forall c | c in ShowNat(n) :: '0' <= c <= '9'
  {
    if n < 10 {
      assert ShowNat(n)[..0] == "";
    } else {
      ShowNatReadsBack(n / 10);
      var front := ShowNat(n / 10);
      assert ShowNat(n)[..|front|] == front;
    }
  }

  lemma ShowIntReadsBack(i: int)
    ensures ReadInt(ShowInt(i)) == i
    ensures ',' !in ShowInt(i)
  {
    ShowNatReadsBack(if i < 0 then -i else i);
    if i < 0 {
      assert ShowInt(i)[1..] == ShowNat(-i);
    } else {
      assert ShowInt(i)[0] in ShowNat(i);
    }
  }

  /** Kinds whose tag determines the value; printing of floats is left open. */
  predicate Printable(v: Value) {
    !v.Float?
  }

  lemma TagIsInjective(v: Value, w: Value)
    requires Printable(v) && Printable(w) && Tag(v) == Tag(w)
    ensures v == w
  {
    assert Tag(v)[0] == Tag(w)[0];
    if v.Int? {
      assert Tag(v)[2..] == ShowInt(v.i) && Tag(w)[2..] == ShowInt(w.i);
      ShowIntReadsBack(v.i);
      ShowIntReadsBack(w.i);
    } else if v.Varchar? {
      assert Tag(v)[2..] == v.s && Tag(w)[2..] == w.s;
    } else if v.Bool? {
      assert Tag(v)[2..] == ShowBool(v.b) && Tag(w)[2..] == ShowBool(w.b);
      assert ShowBool(v.b)[0] == ShowBool(w.b)[0];
    }
  }

  /** Floats are told apart exactly by what they are displayed as, and from values of other kinds always. */
  lemma FloatTags(f: F64, g: F64, v: Value)
    ensures Tag(Float(f)) == Tag(Float(g)) <==> IEEE754.show(f) == IEEE754.show(g)
    ensures !v.Float? ==> Tag(Float(f)) != Tag(v)
  {
    assert Tag(Float(f))[..2] == "f:" && Tag(Float(f))[2..] == IEEE754.show(f) && Tag(Float(g))[2..] == IEEE754.show(g);
    assert Tag(Float(f))[0] == 'f';
  }

  predicate CommaFree(v: Value) {
    Printable(v) && (v.Varchar? ==> ',' !in v.s)
  }

  lemma TagHasNoComma(v: Value)
    requires CommaFree(v)
    ensures ',' !in Tag(v)
  {
    if v.Int? {
      ShowIntReadsBack(v.i);
    }
  }

  lemma SplitAtComma(x: string, r: string, y: string, s: string)
    requires ',' !in x && ',' !in y
    requires x + "," + r == y + "," + s
    ensures x == y && r == s
  {
    var whole := x + "," + r;
    assert whole[|x|] == ',' && whole[|y|] == ',';
    assert whole[..|x|] == x && whole[..|y|] == y;
    assert whole[|x| + 1..] == r && whole[|y| + 1..] == s;
  }

  lemma SplitAtLastComma(r: string, x: string, s: string, y: string)
    requires ',' !in x && ',' !in y
    requires r + "," + x == s + "," + y
    ensures r == s && x == y
  {
    var whole := r + "," + x;
    assert whole[|r|] == ',' && whole[|s|] == ',';
    assert whole[|r| + 1..] == x && whole[|s| + 1..] == y;
    forall k | |r| < k < |whole| ensures whole[k] != ',' {
      assert whole[k] == x[k - |r| - 1];
    }
    forall k | |s| < k < |whole| ensures whole[k] != ',' {
      assert whole[k] == y[k - |s| - 1];
    }
    assert whole[..|r|] == r && whole[..|s|] == s;
  }

  lemma {:induction false} JoinSnoc(parts: seq<string>, last: string)
    requires parts != []
    ensures Join(parts + [last]) == Join(parts) + "," + last
  {
    if |parts| == 1 {
      assert (parts + [last])[1..] == [last];
    } else {
      JoinSnoc(parts[1..], last);
      assert (parts + [last])[1..] == parts[1..] + [last];
      assert parts[0] + "," + (Join(parts[1..]) + "," + last) == (parts[0] + "," + Join(parts[1..])) + "," + last;
    }
  }

  /** Commas in one part do no harm: the others are split off from the front and from the back. */
  lemma {:induction false} JoinIsInjective(a: seq<string>, b: seq<string>, p: int)
    requires |a| == |b| && Join(a) == Join(b)
    requires forall i | 0 <= i < |a| && i != p :: ',' !in a[i] && ',' !in b[i]
    ensures a == b
    decreases |a|
  {
    if |a| >= 2 && p != 0 {
      SplitAtComma(a[0], Join(a[1..]), b[0], Join(b[1..]));
      JoinIsInjective(a[1..], b[1..], p - 1);
      assert a == [a[0]] + a[1..] && b == [b[0]] + b[1..];
    } else if |a| >= 2 {
      var n := |a| - 1;
      assert a == a[..n] + [a[n]] && b == b[..n] + [b[n]];
      JoinSnoc(a[..n], a[n]);
      JoinSnoc(b[..n], b[n]);
      SplitAtLastComma(Join(a[..n]), a[n], Join(b[..n]), b[n]);
      JoinIsInjective(a[..n], b[..n], p);
    }
  }

  /** No floats, and commas at most in the value at position p. */
  predicate CommasOnlyAt(vals: seq<Value>, p: int) {
    forall i | 0 <= i < |vals| :: if i == p then Printable(vals[i]) else CommaFree(vals[i])
  }

  /** Value lists of one length that have commas at one position only share a key only when they are the
      same list. */
  lemma GroupKeyIsInjective(a: seq<Value>, b: seq<Value>, p: int)
    requires |a| == |b| && MakeGroupKey(a) == MakeGroupKey(b)
    requires CommasOnlyAt(a, p) && CommasOnlyAt(b, p)
    ensures a == b
  {
    forall i | 0 <= i < |a| && i != p ensures ',' !in Tags(a)[i] && ',' !in Tags(b)[i] {
      TagHasNoComma(a[i]);
      TagHasNoComma(b[i]);
    }
    JoinIsInjective(Tags(a), Tags(b), p);
    forall i | 0 <= i < |a| ensures a[i] == b[i] {
      assert Tags(a)[i] == Tags(b)[i];
      TagIsInjective(a[i], b[i]);
    }
  }

  // Commas in two values.

  lemma {:induction false} JoinAfter(before: seq<string>, x: seq<string>, y: seq<string>)
    requires x != [] && y != [] && Join(x) == Join(y)
    ensures Join(before + x) == Join(before + y)
  {
    if before == [] {
      assert before + x == x && before + y == y;
    } else {
      JoinAfter(before[1..], x, y);
      assert (before + x)[1..] == before[1..] + x;
      assert (before + y)[1..] == before[1..] + y;
    }
  }

  lemma {:induction false} JoinBefore(x: seq<string>, y: seq<string>, after: seq<string>)
    requires x != [] && y != [] && Join(x) == Join(y)
    ensures Join(x + after) == Join(y + after)
    decreases |after|
  {
    if after == [] {
      assert x + after == x && y + after == y;
    } else {
      var n := |after| - 1;
      JoinBefore(x, y, after[..n]);
      JoinSnoc(x + after[..n], after[n]);
      JoinSnoc(y + after[..n], after[n]);
      assert x + after == (x + after[..n]) + [after[n]];
      assert y + after == (y + after[..n]) + [after[n]];
    }
  }

  /** What stands between two parts when others are in the middle. */
  function Between(middle: seq<string>): string {
    if middle == [] then "," else "," + Join(middle) + ","
  }

  lemma Flatten(x: string, a: string, m: string, b: string, y: string)
    ensures x + a + (m + b + y) == x + (a + m + b) + y
  {
  }

  lemma JoinAround(x: string, middle: seq<string>, y: string)
    ensures Join([x] + middle + [y]) == x + Between(middle) + y
  {
    hide Join;
    JoinSnoc([x] + middle, y);
    JoinCons(x, middle);
    if middle == [] {
      assert [x] + middle == [x];
    } else {
      Flatten(x, ",", Join(middle), ",", y);
    }
  }

  lemma JoinCons(x: string, rest: seq<string>)
    ensures Join([x] + rest) == if rest == [] then x else x + "," + Join(rest)
  {
    assert ([x] + rest)[1..] == rest;
  }

  lemma TagsConcat(a: seq<Value>, b: seq<Value>)
    ensures Tags(a + b) == Tags(a) + Tags(b)
  {
  }

  lemma SegmentsClash(before: seq<Value>, one: seq<Value>, two: seq<Value>, after: seq<Value>)
    requires one != [] && two != [] && MakeGroupKey(one) == MakeGroupKey(two)
    ensures MakeGroupKey(before + one + after) == MakeGroupKey(before + two + after)
  {
    TagsConcat(before, one);
    TagsConcat(before, two);
    TagsConcat(before + one, after);
    TagsConcat(before + two, after);
    JoinAfter(Tags(before), Tags(one), Tags(two));
    JoinBefore(Tags(before) + Tags(one), Tags(before) + Tags(two), Tags(after));
  }

  lemma Reassociate(a: string, b: string, c: string, k: string, t: string)
    ensures (t + (a + k + t + b)) + k + (t + c) == (t + a) + k + (t + (b + k + t + c))
  {
  }

  lemma TagsAround(x: Value, middle: seq<Value>, y: Value)
    ensures MakeGroupKey([x] + middle + [y]) == Tag(x) + Between(Tags(middle)) + Tag(y)
  {
    hide Tag;
    TagsConcat([x], middle);
    TagsConcat([x] + middle, [y]);
    assert Tags([x]) == [Tag(x)] && Tags([y]) == [Tag(y)];
    JoinAround(Tag(x), Tags(middle), Tag(y));
  }

  /** Commas in the strings of two columns allow a clash, whatever stands before, between and after. */
  lemma CommaMakesGroupsClash(a: string, b: string, c: string, before: seq<Value>, middle: seq<Value>, after: seq<Value>)
    ensures var k := Between(Tags(middle));
            var one := before + ([Varchar(a + k + "s:" + b)] + middle + [Varchar(c)]) + after;
            var two := before + ([Varchar(a)] + middle + [Varchar(b + k + "s:" + c)]) + after;
            MakeGroupKey(one) == MakeGroupKey(two) && one != two
  {
    var k := Between(Tags(middle));
    var one := [Varchar(a + k + "s:" + b)] + middle + [Varchar(c)];
    var two := [Varchar(a)] + middle + [Varchar(b + k + "s:" + c)];
    TagsAround(Varchar(a + k + "s:" + b), middle, Varchar(c));
    TagsAround(Varchar(a), middle, Varchar(b + k + "s:" + c));
    Reassociate(a, b, c, k, "s:");
    SegmentsClash(before, one, two, after);
    assert (before + one + after)[|before|] == one[0] && (before + two + after)[|before|] == two[0];
    assert |a + k + "s:" + b| > |a|;
  }
}
