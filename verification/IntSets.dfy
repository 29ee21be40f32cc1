/** The integer sets of Lib/mhlib.py: a sorted list of disjoint, non-adjacent intervals, updated in
    place by insertion and merging, with a text form. The separators are the default ',' and '-'. */
module IntSets {
  import opened Basics
  import opened Decimals

  type Pair = (int, int)

  // ---------- The denotation of a list of pairs ----------

  predicate Has(ps: seq<Pair>, x: int) {
    exists i :: 0 <= i < |ps| && ps[i].0 <= x <= ps[i].1
  }

  ghost predicate Proper(ps: seq<Pair>) {
    forall i :: 0 <= i < |ps| ==> ps[i].0 <= ps[i].1
  }

  ghost predicate Sorted(ps: seq<Pair>) {
    forall i, j :: 0 <= i < j < |ps| ==> ps[i].0 <= ps[j].0
  }

  /** At least one integer lies strictly between any pair and a later one. */
  ghost predicate Apart(ps: seq<Pair>) {
    forall i, j :: 0 <= i < j < |ps| ==> ps[i].1 + 1 < ps[j].0
  }

  ghost predicate Normal(ps: seq<Pair>) {
    Proper(ps) && Apart(ps)
  }

  ghost predicate SameMembers(p: seq<Pair>, q: seq<Pair>) {
    forall x :: Has(p, x) <==> Has(q, x)
  }

  /** The first interval is the least run of members. */
  lemma FirstInterval(p: seq<Pair>)
    requires Normal(p) && p != []
    ensures forall x :: p[0].0 <= x <= p[0].1 ==> Has(p, x)
    ensures forall x :: x < p[0].0 ==> !Has(p, x)
    ensures !Has(p, p[0].1 + 1) && Has(p, p[0].0)
  {
  }

  lemma HeadsAgree(p: seq<Pair>, q: seq<Pair>)
    requires Normal(p) && Normal(q) && SameMembers(p, q) && p != []
    ensures q != [] && p[0] == q[0]
  {
    FirstInterval(p);
    assert Has(q, p[0].0);
    assert q != [];
    FirstInterval(q);
    assert !Has(q, p[0].1 + 1) && !Has(p, q[0].1 + 1);
  }

  /** A set has exactly one normal form. */
  lemma {:induction false} NormalIsUnique(p: seq<Pair>, q: seq<Pair>)
    requires Normal(p) && Normal(q) && SameMembers(p, q)
    ensures p == q
    decreases |p|
  {
    if p == [] {
      if q != [] {
        HeadsAgree(q, p);
      }
    } else {
      HeadsAgree(p, q);
      forall x ensures Has(p[1..], x) <==> Has(q[1..], x) {
        HasRest(p, x);
        HasRest(q, x);
      }
      NormalIsUnique(p[1..], q[1..]);
      assert p == [p[0]] + p[1..] && q == [q[0]] + q[1..];
    }
  }

  lemma HasRest(p: seq<Pair>, x: int)
    requires Normal(p) && p != []
    ensures Has(p[1..], x) <==> Has(p, x) && x > p[0].1
  {
    if Has(p[1..], x) {
      var i :| 0 <= i < |p[1..]| && p[1..][i].0 <= x <= p[1..][i].1;
      assert p[i + 1] == p[1..][i];
    }
    if Has(p, x) && x > p[0].1 {
      var i :| 0 <= i < |p| && p[i].0 <= x <= p[i].1;
      assert p[1..][i - 1] == p[i];
    }
  }

  lemma HasConcat(p: seq<Pair>, q: seq<Pair>, x: int)
    ensures Has(p + q, x) <==> Has(p, x) || Has(q, x)
  {
    var r := p + q;
    if Has(p, x) {
      var i :| 0 <= i < |p| && p[i].0 <= x <= p[i].1;
      assert r[i] == p[i];
    }
    if Has(q, x) {
      var i :| 0 <= i < |q| && q[i].0 <= x <= q[i].1;
      assert r[|p| + i] == q[i];
    }
    if Has(r, x) {
      var i :| 0 <= i < |r| && r[i].0 <= x <= r[i].1;
      assert i < |p| ==> r[i] == p[i];
      assert i >= |p| ==> r[i] == q[i - |p|];
    }
  }

  lemma HasOne(p: Pair, x: int)
    ensures Has([p], x) <==> p.0 <= x <= p.1
  {
    if p.0 <= x <= p.1 {
      assert [p][0] == p;
    }
  }

  /** Replacing the pairs a..b by others changes the members only through them. */
  lemma HasReplaced(ps: seq<Pair>, a: nat, b: nat, mid: seq<Pair>, x: int)
    requires a <= b <= |ps|
    ensures Has(ps[..a] + mid + ps[b..], x) <==> Has(ps[..a], x) || Has(mid, x) || Has(ps[b..], x)
    ensures Has(ps, x) <==> Has(ps[..a], x) || Has(ps[a..b], x) || Has(ps[b..], x)
  {
    HasConcat(ps[..a] + mid, ps[b..], x);
    HasConcat(ps[..a], mid, x);
    assert ps == ps[..a] + ps[a..b] + ps[b..];
    HasConcat(ps[..a] + ps[a..b], ps[b..], x);
    HasConcat(ps[..a], ps[a..b], x);
  }

  // ---------- Sorting ----------

  predicate Before(p: Pair, q: Pair) {
    p.0 < q.0 || (p.0 == q.0 && p.1 <= q.1)
  }

  function Insert(p: Pair, ps: seq<Pair>): seq<Pair> {
    if ps == [] || Before(p, ps[0]) then [p] + ps else [ps[0]] + Insert(p, ps[1..])
  }

  /** Python's list sort on pairs. */
  function SortPairs(ps: seq<Pair>): seq<Pair> {
    if ps == [] then [] else Insert(ps[0], SortPairs(ps[1..]))
  }

  lemma {:induction false} InsertKeeps(p: Pair, ps: seq<Pair>)
    requires Proper(ps) && p.0 <= p.1 && Sorted(ps)
    ensures Proper(Insert(p, ps)) && Sorted(Insert(p, ps))
    ensures forall x :: Has(Insert(p, ps), x) <==> Has(ps, x) || p.0 <= x <= p.1
    ensures Insert(p, ps) != [] && (Insert(p, ps)[0] == p || (ps != [] && Insert(p, ps)[0] == ps[0]))
  {
    if ps == [] || Before(p, ps[0]) {
      forall x ensures Has([p] + ps, x) <==> Has(ps, x) || p.0 <= x <= p.1 {
        HasConcat([p], ps, x);
        HasOne(p, x);
      }
    } else {
      InsertKeeps(p, ps[1..]);
      var r := Insert(p, ps[1..]);
      forall x ensures Has([ps[0]] + r, x) <==> Has(ps, x) || p.0 <= x <= p.1 {
        HasConcat([ps[0]], r, x);
        HasConcat([ps[0]], ps[1..], x);
        assert ps == [ps[0]] + ps[1..];
      }
      assert r[0].0 >= ps[0].0;
    }
  }

  lemma {:induction false} SortKeeps(ps: seq<Pair>)
    requires Proper(ps)
    ensures Proper(SortPairs(ps)) && Sorted(SortPairs(ps)) && SameMembers(SortPairs(ps), ps)
  {
    if ps != [] {
      SortKeeps(ps[1..]);
      InsertKeeps(ps[0], SortPairs(ps[1..]));
      forall x ensures Has(SortPairs(ps), x) <==> Has(ps, x) {
        assert ps == [ps[0]] + ps[1..];
        HasConcat([ps[0]], ps[1..], x);
        HasOne(ps[0], x);
      }
    }
  }

  // ---------- The set object ----------

  class IntSet {
    var pairs: seq<Pair>

    ghost predicate Valid()
      reads this
    {
      Normal(pairs)
    }

    constructor ()
      ensures Valid() && pairs == []
    {
      pairs := [];
    }

    /** `normalize`: sort, then merge every pair with the previous one if they touch. */
    method Normalize()
      requires Proper(pairs)
      modifies this
      ensures Valid() && SameMembers(pairs, old(pairs))
    {
      SortKeeps(pairs);
      pairs := SortPairs(pairs);
      var i := 1;
      while i < |pairs|
        invariant 1 <= i && (i <= |pairs| || |pairs| == 0)
        invariant Proper(pairs) && Sorted(pairs)
        invariant i <= |pairs| ==> Apart(pairs[..i])
        invariant SameMembers(pairs, old(pairs))
        decreases |pairs| - i
      {
        var (alo, ahi) := pairs[i - 1];
        var (blo, bhi) := pairs[i];
        if ahi >= blo - 1 {
          var hi := if ahi >= bhi then ahi else bhi;
          MergeStep(pairs, i, (alo, hi));
          pairs := pairs[..i - 1] + [(alo, hi)] + pairs[i + 1..];
        } else {
          ExtendApart(pairs, i);
          i := i + 1;
        }
      }
      if pairs != [] {
        assert pairs[..i] == pairs;
      }
    }

    /** `append`: add one member, extending, inserting or joining intervals in place. */
    method Append(x: int)
      requires Valid()
      modifies this
      ensures Valid()
      ensures Adds(pairs, old(pairs), x)
    {
      var n := |pairs|;
      for i := 0 to n
        invariant pairs == old(pairs)
        invariant forall j :: 0 <= j < i ==> pairs[j].1 < x
      {
        var (lo, hi) := pairs[i];
        if x < lo {
          InsertBefore(pairs, i, x);
          if x + 1 == lo {
            pairs := pairs[i := (x, hi)];
          } else {
            pairs := pairs[..i] + [(x, x)] + pairs[i..];
          }
          if i > 0 && x - 1 == pairs[i - 1].1 {
            JoinStep(pairs, i);
            pairs := pairs[..i - 1] + [(pairs[i - 1].0, pairs[i].1)] + pairs[i + 1..];
          }
          return;
        }
        if x <= hi {
          assert Has(pairs, x);
          return;
        }
      }
      var i := n - 1;
      if i >= 0 {
        var (lo, hi) := pairs[i];
        if x - 1 == hi {
          ExtendLast(pairs, x);
          pairs := pairs[i := (lo, x)];
          return;
        }
      }
      AppendLast(pairs, x);
      pairs := pairs + [(x, x)];
    }

    /** `addpair`. */
    method AddPair(xlo: int, xhi: int)
      requires Valid()
      modifies this
      ensures Valid()
      ensures forall y :: Has(pairs, y) <==> Has(old(pairs), y) || xlo <= y <= xhi
    {
      if xlo > xhi {
        return;
      }
      pairs := pairs + [(xlo, xhi)];
      forall y ensures Has(pairs, y) <==> Has(old(pairs), y) || xlo <= y <= xhi {
        HasConcat(old(pairs), [(xlo, xhi)], y);
        HasOne((xlo, xhi), y);
      }
      Normalize();
    }

    /** `fromstring`: add the intervals written in data. False is ValueError, and then the set is
        as it was. */
    method FromString(data: string) returns (ok: bool)
      requires Valid()
      modifies this
      ensures Valid()
      ensures ok <==> Parse(data).Some?
      ensures ok ==> forall x :: Has(pairs, x) <==> Has(old(pairs), x) || Has(Parse(data).value, x)
      ensures !ok ==> pairs == old(pairs)
    {
      var parts := Split(data, ',');
      var added: seq<Pair> := [];
      for i := 0 to |parts|
        invariant pairs == old(pairs) && ParseParts(parts[..i]) == Some(added)
      {
        assert parts[..i + 1][..i] == parts[..i];
        var p := ReadPart(parts[i]);
        if p == None {
          ParseFails(parts, i);
          return false;
        }
        added := added + [p.value];
      }
      assert parts[..|parts|] == parts;
      ParsedIsProper(parts);
      pairs := pairs + added;
      forall x ensures Has(pairs, x) <==> Has(old(pairs), x) || Has(added, x) {
        HasConcat(old(pairs), added, x);
      }
      Normalize();
      ok := true;
    }

    /** The inner loop of `fromstring`. */
    method ReadPart(part: string) returns (r: Option<Pair>)
      ensures r == ParsePart(part)
    {
      hide Split, Strip, Atoi;
      var subs := Split(part, '-');
      var list: seq<int> := [];
      for j := 0 to |subs|
        invariant |list| == j
        invariant forall k :: 0 <= k < j ==> Atoi(Strip(subs[k])) == Some(list[k])
      {
        var a := Atoi(Strip(subs[j]));
        if a == None {
          return None;
        }
        list := list + [a.value];
      }
      if |list| == 1 {
        r := Some((list[0], list[0]));
      } else if |list| == 2 && list[0] <= list[1] {
        r := Some((list[0], list[1]));
      } else {
        r := None;
      }
    }

    method ToString() returns (s: string)
      ensures s == Text(pairs)
    {
      s := "";
      for i := 0 to |pairs|
        invariant s == Text(pairs[..i]) && (i > 0 ==> s != "")
      {
        assert pairs[..i + 1][..i] == pairs[..i];
        var (lo, hi) := pairs[i];
        var t := if lo == hi then Repr(lo) else Repr(lo) + "-" + Repr(hi);
        if s != "" {
          s := s + ("," + t);
          assert Text(pairs[..i]) + "," + t == Text(pairs[..i]) + ("," + t);
        } else {
          s := t;
        }
      }
      assert pairs[..|pairs|] == pairs;
    }

    /** IntSet(self.tostring()): the constructor skips an empty text. It succeeds exactly when the
        set has no negative member, and then gives the same list of pairs. */
    method Rebuild() returns (ok: bool, t: IntSet)
      requires Valid()
      ensures ok <==> forall x :: Has(pairs, x) ==> x >= 0
      ensures ok ==> t.Valid() && t.pairs == pairs
      ensures fresh(t) && pairs == old(pairs)
    {
      var data := ToString();
      t := new IntSet();
      ok := true;
      if data != "" {
        assert pairs != [];
        TextRoundTrip(pairs);
        ok := t.FromString(data);
        if ok {
          NormalIsUnique(t.pairs, pairs);
        }
      } else {
        TextNotEmpty(pairs);
      }
    }
  }

  lemma {:induction false} TextNotEmpty(ps: seq<Pair>)
    ensures Text(ps) == "" <==> ps == []
  {
  }

  lemma ExtendApart(ps: seq<Pair>, i: nat)
    requires Proper(ps) && 1 <= i < |ps| && Apart(ps[..i]) && ps[i - 1].1 < ps[i].0 - 1
    ensures Apart(ps[..i + 1])
  {
    var q := ps[..i + 1];
    forall a, b | 0 <= a < b < |q| ensures q[a].1 + 1 < q[b].0 {
      if b == i && a < i - 1 {
        assert ps[..i][a].1 + 1 < ps[..i][i - 1].0;
      } else if b < i {
        assert ps[..i][a].1 + 1 < ps[..i][b].0;
      }
    }
  }

  lemma MergeStep(ps: seq<Pair>, i: nat, m: Pair)
    requires Proper(ps) && Sorted(ps) && 1 <= i < |ps| && Apart(ps[..i])
    requires ps[i - 1].1 >= ps[i].0 - 1
    requires m.0 == ps[i - 1].0 && m.1 == (if ps[i - 1].1 >= ps[i].1 then ps[i - 1].1 else ps[i].1)
    ensures var q := ps[..i - 1] + [m] + ps[i + 1..];
      Proper(q) && Sorted(q) && Apart(q[..i]) && SameMembers(q, ps)
  {
    var q := ps[..i - 1] + [m] + ps[i + 1..];
    assert forall k :: i <= k < |q| ==> q[k] == ps[k + 1];
    forall a, b | 0 <= a < b < i ensures q[..i][a].1 + 1 < q[..i][b].0 {
      assert ps[..i][a].1 + 1 < ps[..i][b].0;
    }
    JoinMembers(ps, i, m);
    hide SameMembers;
  }

  /** Two touching pairs and their union have the same members. */
  lemma JoinMembers(ps: seq<Pair>, i: nat, m: Pair)
    requires Proper(ps) && 1 <= i < |ps| && ps[i - 1].0 <= ps[i].0 <= ps[i - 1].1 + 1
    requires m.0 == ps[i - 1].0 && m.1 == (if ps[i - 1].1 >= ps[i].1 then ps[i - 1].1 else ps[i].1)
    ensures SameMembers(ps[..i - 1] + [m] + ps[i + 1..], ps)
  {
    var q := ps[..i - 1] + [m] + ps[i + 1..];
    assert ps[i - 1..i + 1] == [ps[i - 1]] + [ps[i]];
    forall x ensures Has(q, x) <==> Has(ps, x) {
      HasReplaced(ps, i - 1, i + 1, [m], x);
      HasOne(m, x);
      HasConcat([ps[i - 1]], [ps[i]], x);
      HasOne(ps[i - 1], x);
      HasOne(ps[i], x);
    }
  }

  ghost predicate Adds(q: seq<Pair>, p: seq<Pair>, x: int) {
    forall y :: Has(q, y) <==> Has(p, y) || y == x
  }

  /** Normal except that pair i may touch the one before it. */
  ghost predicate NormalBut(q: seq<Pair>, i: nat) {
    i < |q| && Proper(q) &&
    forall a, b :: 0 <= a < b < |q| ==> q[a].1 < q[b].0 && (q[a].1 + 1 < q[b].0 || (a == i - 1 && b == i))
  }

  function WithBefore(ps: seq<Pair>, i: nat, x: int): seq<Pair>
    requires i < |ps|
  {
    if x + 1 == ps[i].0 then ps[i := (x, ps[i].1)] else ps[..i] + [(x, x)] + ps[i..]
  }

  lemma InsertBefore(ps: seq<Pair>, i: nat, x: int)
    requires Normal(ps) && i < |ps| && x < ps[i].0 && forall j :: 0 <= j < i ==> ps[j].1 < x
    ensures var q := WithBefore(ps, i, x);
      NormalBut(q, i) && q[i].0 == x && Adds(q, ps, x) && (i == 0 || x - 1 != q[i - 1].1 ==> Normal(q))
  {
    InsertShape(ps, i, x);
    if x + 1 == ps[i].0 {
      assert WithBefore(ps, i, x) == ps[..i] + [(x, ps[i].1)] + ps[i + 1..];
      Replaces(ps, i, i + 1, (x, ps[i].1), x);
    } else {
      Replaces(ps, i, i, (x, x), x);
    }
  }

  lemma InsertShape(ps: seq<Pair>, i: nat, x: int)
    requires Normal(ps) && i < |ps| && x < ps[i].0 && forall j :: 0 <= j < i ==> ps[j].1 < x
    ensures var q := WithBefore(ps, i, x);
      NormalBut(q, i) && q[i].0 == x && (i == 0 || x - 1 != q[i - 1].1 ==> Normal(q))
  {
    if x + 1 != ps[i].0 {
      SqueezeShape(ps, i, x);
    } else {
      var q := ps[i := (x, ps[i].1)];
      forall a, b | 0 <= a < b < |q| ensures q[a].1 < q[b].0 && (q[a].1 + 1 < q[b].0 || (a == i - 1 && b == i)) {
        assert ps[a].1 + 1 < ps[b].0 && (a < i - 1 ==> ps[a].1 + 1 < ps[i - 1].0);
      }
    }
  }

  lemma SqueezeShape(ps: seq<Pair>, i: nat, x: int)
    requires Normal(ps) && i < |ps| && x + 1 < ps[i].0 && forall j :: 0 <= j < i ==> ps[j].1 < x
    ensures var q := ps[..i] + [(x, x)] + ps[i..];
      NormalBut(q, i) && (i == 0 || x - 1 != q[i - 1].1 ==> Normal(q))
  {
    var q := ps[..i] + [(x, x)] + ps[i..];
    hide Normal;
    forall a, b | 0 <= a < b < |q| ensures q[a].1 < q[b].0 && (q[a].1 + 1 < q[b].0 || (a == i - 1 && b == i)) {
      SqueezedPair(ps, i, x, a, b);
    }
    forall k | 0 <= k < |q| ensures q[k].0 <= q[k].1 {
      SqueezedOne(ps, i, x, k);
    }
    assert Proper(q) && NormalBut(q, i);
    if i == 0 || x - 1 != q[i - 1].1 {
      SqueezedIsNormal(q, i);
    }
  }

  lemma SqueezedIsNormal(q: seq<Pair>, i: nat)
    requires NormalBut(q, i) && (i == 0 || q[i - 1].1 + 1 != q[i].0)
    ensures Normal(q)
  {
  }

  lemma SqueezedOne(ps: seq<Pair>, i: nat, x: int, k: nat)
    requires Normal(ps) && i < |ps| && k <= |ps|
    ensures var q := ps[..i] + [(x, x)] + ps[i..];
      |q| == |ps| + 1 && q[k] == (if k < i then ps[k] else if k == i then (x, x) else ps[k - 1]) && q[k].0 <= q[k].1
  {
  }

  lemma SqueezedPair(ps: seq<Pair>, i: nat, x: int, a: nat, b: nat)
    requires Normal(ps) && i < |ps| && x + 1 < ps[i].0 && forall j :: 0 <= j < i ==> ps[j].1 < x
    requires a < b <= |ps|
    ensures var q := ps[..i] + [(x, x)] + ps[i..];
      |q| == |ps| + 1 && q[a].1 < q[b].0 && (q[a].1 + 1 < q[b].0 || (a == i - 1 && b == i))
  {
    SqueezedOne(ps, i, x, a);
    SqueezedOne(ps, i, x, b);
    var a' := if a < i then a else a - 1;
    var b' := if b < i then b else b - 1;
    if a == i {
      assert b' > i ==> ps[i].1 + 1 < ps[b'].0;
    } else if b != i {
      assert ps[a'].1 + 1 < ps[b'].0;
    }
  }

  /** Pair m in place of the pairs i..b adds exactly x. */
  lemma Replaces(ps: seq<Pair>, i: nat, b: nat, m: Pair, x: int)
    requires Proper(ps) && i <= b <= |ps|
    requires || (b == i && m == (x, x))
             || (b == i + 1 && x + 1 == ps[i].0 && m == (x, ps[i].1))
             || (b == i + 1 && x - 1 == ps[i].1 && m == (ps[i].0, x))
    ensures Adds(ps[..i] + [m] + ps[b..], ps, x)
  {
    var q := ps[..i] + [m] + ps[b..];
    assert b == i ==> ps[i..b] == [];
    assert b == i + 1 ==> ps[i..b] == [ps[i]];
    forall y ensures Has(q, y) <==> Has(ps, y) || y == x {
      HasReplaced(ps, i, b, [m], y);
      HasOne(m, y);
      if b > i {
        HasOne(ps[i], y);
      }
    }
  }

  lemma JoinStep(q: seq<Pair>, i: nat)
    requires NormalBut(q, i) && i > 0 && q[i].0 - 1 == q[i - 1].1
    ensures var r := q[..i - 1] + [(q[i - 1].0, q[i].1)] + q[i + 1..];
      Normal(r) && SameMembers(r, q)
  {
    var m := (q[i - 1].0, q[i].1);
    var r := q[..i - 1] + [m] + q[i + 1..];
    assert forall k :: i <= k < |r| ==> r[k] == q[k + 1];
    JoinMembers(q, i, m);
    hide SameMembers;
  }

  lemma ExtendLast(ps: seq<Pair>, x: int)
    requires Normal(ps) && ps != [] && x - 1 == ps[|ps| - 1].1
    ensures var q := ps[|ps| - 1 := (ps[|ps| - 1].0, x)];
      Normal(q) && Adds(q, ps, x)
  {
    var i := |ps| - 1;
    assert ps[i := (ps[i].0, x)] == ps[..i] + [(ps[i].0, x)] + ps[i + 1..];
    Replaces(ps, i, i + 1, (ps[i].0, x), x);
  }

  lemma AppendLast(ps: seq<Pair>, x: int)
    requires Normal(ps) && forall j :: 0 <= j < |ps| ==> ps[j].1 + 1 < x
    ensures Normal(ps + [(x, x)]) && Adds(ps + [(x, x)], ps, x)
  {
    forall y ensures Has(ps + [(x, x)], y) <==> Has(ps, y) || y == x {
      HasConcat(ps, [(x, x)], y);
      HasOne((x, x), y);
    }
  }

  // ---------- Comparison ----------

  function Sign(n: int): int {
    if n < 0 then -1 else if n > 0 then 1 else 0
  }

  /** Python's cmp on two lists of pairs. */
  function Compare(p: seq<Pair>, q: seq<Pair>): int {
    if p == [] && q == [] then 0
    else if p == [] then -1
    else if q == [] then 1
    else if p[0].0 != q[0].0 then Sign(p[0].0 - q[0].0)
    else if p[0].1 != q[0].1 then Sign(p[0].1 - q[0].1)
    else Compare(p[1..], q[1..])
  }

  lemma {:induction false} CompareEqual(p: seq<Pair>, q: seq<Pair>)
    ensures Compare(p, q) == 0 <==> p == q
  {
    if p != [] && q != [] {
      CompareEqual(p[1..], q[1..]);
      assert p == [p[0]] + p[1..] && q == [q[0]] + q[1..];
    }
  }

  /** Pair p comes before pair q. */
  predicate Earlier(p: Pair, q: Pair) {
    p.0 < q.0 || (p.0 == q.0 && p.1 < q.1)
  }

  /** And else the first pair decides in which they differ, or which list goes on. */
  lemma {:induction false} CompareDecides(p: seq<Pair>, q: seq<Pair>, k: nat)
    requires k <= |p| && k <= |q| && p[..k] == q[..k]
    ensures k < |p| && k < |q| && Earlier(p[k], q[k]) ==> Compare(p, q) == -1 && Compare(q, p) == 1
    ensures k == |p| < |q| ==> Compare(p, q) == -1 && Compare(q, p) == 1
    decreases k
  {
    if k > 0 {
      assert p[..k][0] == p[0] && q[..k][0] == q[0];
      assert p[1..][..k - 1] == p[..k][1..] && q[1..][..k - 1] == q[..k][1..];
      CompareDecides(p[1..], q[1..], k - 1);
    }
  }

  /** `__cmp__` is 0 exactly for sets with the same members. */
  lemma CompareDecidesEquality(p: seq<Pair>, q: seq<Pair>)
    requires Normal(p) && Normal(q)
    ensures Compare(p, q) == 0 <==> SameMembers(p, q)
  {
    CompareEqual(p, q);
    if SameMembers(p, q) {
      NormalIsUnique(p, q);
    }
  }

  // ---------- Text form ----------

  function Repr(n: int): string {
    if n < 0 then "-" + Decimal(-n) else Decimal(n)
  }

  function PairText(p: Pair): string {
    if p.0 == p.1 then Repr(p.0) else Repr(p.0) + "-" + Repr(p.1)
  }

  function Text(ps: seq<Pair>): string {
    if ps == [] then ""
    else if |ps| == 1 then PairText(ps[0])
    else Text(ps[..|ps| - 1]) + "," + PairText(ps[|ps| - 1])
  }

  /** regsub.split with a one-character separator. */
  function Split(s: string, sep: char): (r: seq<string>)
    ensures r != []
  {
    if s == "" then [""]
    else
      var r := Split(s[1..], sep);
      if s[0] == sep then [""] + r else [[s[0]] + r[0]] + r[1..]
  }

  function Strip(s: string): string
    decreases |s|
  {
    if s == "" then ""
    else if IsSpace(s[0]) then Strip(s[1..])
    else if IsSpace(s[|s| - 1]) then Strip(s[..|s| - 1])
    else s
  }

  /** string.atoi; None is ValueError. */
  function Atoi(s: string): Option<int> {
    var t := if s != "" && (s[0] == '+' || s[0] == '-') then s[1..] else s;
    if t == "" || !Digits(t) then None
    else Some(if s[0] == '-' then 0 - Val(t) else Val(t))
  }

  /** One part of the text: a number, or two in order; None is ValueError. */
  function ParsePart(part: string): Option<Pair> {
    var subs := Split(part, '-');
    if |subs| == 1 then
      var a := Atoi(Strip(subs[0]));
      if a.Some? then Some((a.value, a.value)) else None
    else if |subs| == 2 then
      var a, b := Atoi(Strip(subs[0])), Atoi(Strip(subs[1]));
      if a.Some? && b.Some? && a.value <= b.value then Some((a.value, b.value)) else None
    else None
  }

  function ParseParts(parts: seq<string>): Option<seq<Pair>> {
    if parts == [] then Some([])
    else
      var init := ParseParts(parts[..|parts| - 1]);
      var last := ParsePart(parts[|parts| - 1]);
      if init.Some? && last.Some? then Some(init.value + [last.value]) else None
  }

  function Parse(data: string): Option<seq<Pair>> {
    ParseParts(Split(data, ','))
  }

  lemma {:induction false} SplitNot(s: string, sep: char)
    requires sep !in s
    ensures Split(s, sep) == [s]
  {
    if s != "" {
      SplitNot(s[1..], sep);
      assert [s[0]] + s[1..] == s;
    }
  }

  lemma SplitStep(c: char, t: string, sep: char)
    ensures c == sep ==> Split([c] + t, sep) == [""] + Split(t, sep)
    ensures c != sep ==> Split([c] + t, sep) == [[c] + Split(t, sep)[0]] + Split(t, sep)[1..]
  {
    assert ([c] + t)[1..] == t;
  }

  lemma HeadOfConcat(h: string, r: seq<string>, q: seq<string>)
    requires r != []
    ensures [h + (r + q)[0]] + (r + q)[1..] == ([h + r[0]] + r[1..]) + q
  {
    assert (r + q)[0] == r[0] && (r + q)[1..] == r[1..] + q;
  }

  lemma FirstOut(a: string, sep: char, b: string)
    requires a != ""
    ensures a + [sep] + b == [a[0]] + (a[1..] + [sep] + b)
  {
  }

  lemma {:induction false} SplitConcat(a: string, sep: char, b: string)
    ensures Split(a + [sep] + b, sep) == Split(a, sep) + Split(b, sep)
  {
    if a == "" {
      assert a + [sep] + b == [sep] + b;
      SplitStep(sep, b, sep);
    } else {
      hide Split;
      SplitConcat(a[1..], sep, b);
      SplitConcatStep(a, a[1..] + [sep] + b, sep, b);
      FirstOut(a, sep, b);
    }
  }

  lemma SplitConcatStep(a: string, t: string, sep: char, b: string)
    requires a != "" && Split(t, sep) == Split(a[1..], sep) + Split(b, sep)
    ensures Split([a[0]] + t, sep) == Split(a, sep) + Split(b, sep)
  {
    hide Split;
    assert a == [a[0]] + a[1..];
    SplitStep(a[0], t, sep);
    SplitStep(a[0], a[1..], sep);
    HeadOfConcat([a[0]], Split(a[1..], sep), Split(b, sep));
  }

  lemma AtoiDecimal(n: nat)
    ensures Strip(Decimal(n)) == Decimal(n) && Atoi(Decimal(n)) == Some(n)
    ensures '-' !in Decimal(n) && ',' !in Decimal(n)
  {
    var s := Decimal(n);
    assert IsDigit(s[0]) && IsDigit(s[|s| - 1]);
  }

  lemma ParsePairText(p: Pair)
    requires 0 <= p.0 <= p.1
    ensures ',' !in PairText(p) && ParsePart(PairText(p)) == Some(p)
  {
    var lo, hi := Decimal(p.0), Decimal(p.1);
    AtoiDecimal(p.0);
    AtoiDecimal(p.1);
    SplitNot(lo, '-');
    SplitNot(hi, '-');
    SplitTwo(lo, hi);
    assert PairText(p) == if p.0 == p.1 then lo else lo + "-" + hi;
    hide Split, Strip, Atoi, Decimal, PairText;
    assert ',' !in lo + "-" + hi;
  }

  lemma SplitTwo(lo: string, hi: string)
    requires Split(lo, '-') == [lo] && Split(hi, '-') == [hi]
    ensures Split(lo + "-" + hi, '-') == [lo, hi]
  {
    hide Split;
    SplitConcat(lo, '-', hi);
    assert lo + ['-'] + hi == lo + "-" + hi;
  }

  predicate Blank(s: string) {
    forall i :: 0 <= i < |s| ==> IsSpace(s[i])
  }

  lemma {:induction false} StripFront(w: string, s: string)
    requires Blank(w)
    ensures Strip(w + s) == Strip(s)
    decreases |w|
  {
    if w == "" {
      assert w + s == s;
    } else {
      assert (w + s)[1..] == w[1..] + s;
      StripFront(w[1..], s);
    }
  }

  lemma {:induction false} StripBack(s: string, w: string)
    requires s != "" && !IsSpace(s[0]) && !IsSpace(s[|s| - 1]) && Blank(w)
    ensures Strip(s + w) == s
    decreases |w|
  {
    if w == "" {
      assert s + w == s;
    } else {
      assert (s + w)[..|s + w| - 1] == s + w[..|w| - 1];
      StripBack(s, w[..|w| - 1]);
    }
  }

  /** Blanks around a number do not count. */
  lemma NumberInBlanks(v: string, a: string, w: string)
    requires Blank(v) && Blank(w) && Digits(a) && a != ""
    ensures Atoi(Strip(v + a + w)) == Some(Val(a)) && '-' !in v + a + w
  {
    assert v + a + w == v + (a + w);
    assert IsDigit(a[0]) && IsDigit(a[|a| - 1]);
    StripFront(v, a + w);
    StripBack(a, w);
    assert forall i :: 0 <= i < |v + a + w| ==> IsSpace((v + a + w)[i]) || IsDigit((v + a + w)[i]);
  }

  /** What a part denotes: a number stands for itself, two numbers with a hyphen between them for what
      lies from one to the other, and are refused in the wrong order; blanks do not count. */
  lemma PartsDenote(v: string, a: string, w: string, x: string, b: string, y: string)
    requires Blank(v) && Blank(w) && Blank(x) && Blank(y) && Digits(a) && a != "" && Digits(b) && b != ""
    ensures ParsePart(v + a + w) == Some((Val(a), Val(a)))
    ensures ParsePart(v + a + w + "-" + (x + b + y)) == if Val(a) <= Val(b) then Some((Val(a), Val(b))) else None
  {
    NumberInBlanks(v, a, w);
    NumberInBlanks(x, b, y);
    SplitNot(v + a + w, '-');
    SplitNot(x + b + y, '-');
    hide Split, Strip, Atoi;
    SplitTwo(v + a + w, x + b + y);
  }

  /** The text of one member is a number, and only that of more members has a hyphen; both are without
      blanks. */
  lemma TextOfPair(lo: nat, hi: nat)
    requires lo <= hi
    ensures var t := PairText((lo, hi));
      && (lo == hi ==> t != "" && Digits(t) && Val(t) == lo)
      && (lo < hi ==> exists a, b :: Digits(a) && Digits(b) && t == a + "-" + b && Val(a) == lo && Val(b) == hi)
  {
    if lo < hi {
      var a, b := Decimal(lo), Decimal(hi);
      assert Digits(a) && Digits(b) && PairText((lo, hi)) == a + "-" + b && Val(a) == lo && Val(b) == hi;
    }
  }

  /** A text that starts with a minus sign is not a part: the minus is taken for a separator. */
  lemma ParseNegativeText(p: Pair)
    requires p.0 < 0
    ensures ',' !in PairText(p) && ParsePart(PairText(p)) == None
  {
    var t := PairText(p);
    NegativeText(p);
    hide PairText, Repr, Decimal;
    LeadingMinus(t);
  }

  lemma NegativeText(p: Pair)
    requires p.0 < 0
    ensures PairText(p) != "" && PairText(p)[0] == '-' && ',' !in PairText(p)
  {
    NegativeRepr(p.0);
    ReprHasNoComma(p.1);
    hide Repr;
  }

  lemma ReprHasNoComma(n: int)
    ensures ',' !in Repr(n)
  {
    var d := Decimal(if n < 0 then -n else n);
    assert Digits(d);
    if n < 0 {
      assert forall c :: c in Repr(n) ==> c == '-' || c in d;
    }
  }

  lemma NegativeRepr(n: int)
    requires n < 0
    ensures Repr(n) != "" && Repr(n)[0] == '-' && ',' !in Repr(n)
  {
    ReprHasNoComma(n);
  }

  lemma LeadingMinus(t: string)
    requires t != "" && t[0] == '-'
    ensures ParsePart(t) == None
  {
    assert t == ['-'] + t[1..];
    SplitStep('-', t[1..], '-');
    hide Split;
    assert Strip("") == "" && Atoi("") == None;
  }

  ghost function PairTexts(ps: seq<Pair>): seq<string> {
    seq(|ps|, i requires 0 <= i < |ps| => PairText(ps[i]))
  }

  lemma PairTextsStep(ps: seq<Pair>)
    requires ps != []
    ensures |PairTexts(ps)| == |ps| && |PairTexts(ps[..|ps| - 1])| == |ps| - 1
    ensures PairTexts(ps) == PairTexts(ps[..|ps| - 1]) + [PairText(ps[|ps| - 1])]
  {
  }

  lemma SplitLast(text: string, last: string)
    requires ',' !in last
    ensures Split(text + "," + last, ',') == Split(text, ',') + [last]
  {
    assert text + "," + last == text + [','] + last;
    SplitConcat(text, ',', last);
    SplitNot(last, ',');
  }

  lemma {:induction false} SplitText(ps: seq<Pair>)
    requires ps != [] && forall i :: 0 <= i < |ps| ==> ',' !in PairText(ps[i])
    ensures Split(Text(ps), ',') == PairTexts(ps)
  {
    hide Split, PairText;
    var last := PairText(ps[|ps| - 1]);
    if |ps| == 1 {
      SplitNot(last, ',');
    } else {
      var init := ps[..|ps| - 1];
      SplitText(init);
      hide PairTexts;
      PairTextsStep(ps);
      SplitLast(Text(init), last);
    }
  }

  lemma {:induction false} ParsePairTexts(ps: seq<Pair>)
    requires forall i :: 0 <= i < |ps| ==> ParsePart(PairText(ps[i])) == Some(ps[i])
    ensures ParseParts(PairTexts(ps)) == Some(ps)
  {
    hide ParsePart, PairText, PairTexts, ParseParts;
    if ps == [] {
      NoPairTexts();
    } else {
      var init, last := ps[..|ps| - 1], ps[|ps| - 1];
      assert forall i :: 0 <= i < |init| ==> init[i] == ps[i];
      ParsePairTexts(init);
      PairTextsStep(ps);
      ParseLast(PairTexts(init), PairText(last));
      assert init + [last] == ps;
    }
  }

  lemma NoPairTexts()
    ensures ParseParts(PairTexts([])) == Some([])
  {
    assert PairTexts([]) == [];
  }

  lemma ParseLast(init: seq<string>, last: string)
    requires ParseParts(init).Some? && ParsePart(last).Some?
    ensures ParseParts(init + [last]) == Some(ParseParts(init).value + [ParsePart(last).value])
  {
    hide ParsePart;
    assert (init + [last])[..|init|] == init;
  }

  lemma {:induction false} ParseFails(parts: seq<string>, i: nat)
    requires i < |parts| && ParsePart(parts[i]) == None
    ensures ParseParts(parts) == None
  {
    if i < |parts| - 1 {
      ParseFails(parts[..|parts| - 1], i);
    }
  }

  /** Parsing the text of a set gives the set back if and only if it has no negative member. */
  lemma TextRoundTrip(ps: seq<Pair>)
    requires Normal(ps) && ps != []
    ensures Parse(Text(ps)) == if ps[0].0 >= 0 then Some(ps) else None
    ensures ps[0].0 >= 0 <==> forall x :: Has(ps, x) ==> x >= 0
  {
    FirstInterval(ps);
    forall i | 0 <= i < |ps|
      ensures ',' !in PairText(ps[i]) && (ps[0].0 >= 0 ==> ParsePart(PairText(ps[i])) == Some(ps[i]))
    {
      if ps[i].0 < 0 {
        ParseNegativeText(ps[i]);
      } else {
        ParsePairText(ps[i]);
      }
    }
    SplitText(ps);
    if ps[0].0 >= 0 {
      ParsePairTexts(ps);
    } else {
      ParseNegativeText(ps[0]);
      assert PairTexts(ps)[0] == PairText(ps[0]);
      ParseFails(PairTexts(ps), 0);
    }
  }

  lemma {:induction false} ParsedIsProper(parts: seq<string>)
    ensures ParseParts(parts).Some? ==> Proper(ParseParts(parts).value)
  {
    if parts != [] {
      ParsedIsProper(parts[..|parts| - 1]);
    }
  }

  // ---------- Runs ----------

  datatype Action = AddOne(x: int) | AddInterval(lo: int, hi: int) | AddText(data: string)

  /** The members that one call is to add; a text that is no list of intervals adds none. */
  predicate Brings(a: Action, x: int) {
    match a
    case AddOne(y) => x == y
    case AddInterval(lo, hi) => lo <= x <= hi
    case AddText(data) => Parse(data).Some? && Has(Parse(data).value, x)
  }

  predicate BroughtBy(actions: seq<Action>, x: int) {
    actions != [] && (BroughtBy(actions[..|actions| - 1], x) || Brings(actions[|actions| - 1], x))
  }

  /** Every run of calls denotes the union of what they add, in normal form. */
  method Build(actions: seq<Action>) returns (t: IntSet)
    ensures fresh(t) && t.Valid()
    ensures forall x :: Has(t.pairs, x) <==> BroughtBy(actions, x)
  {
    hide Parse;
    t := new IntSet();
    for i := 0 to |actions|
      invariant fresh(t) && t.Valid()
      invariant forall x :: Has(t.pairs, x) <==> BroughtBy(actions[..i], x)
    {
      assert actions[..i + 1][..i] == actions[..i];
      match actions[i] {
        case AddOne(x) =>
          t.Append(x);
        case AddInterval(lo, hi) =>
          t.AddPair(lo, hi);
        case AddText(data) =>
          var _ := t.FromString(data);
      }
    }
    assert actions[..|actions|] == actions;
  }
}
