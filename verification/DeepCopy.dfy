/** The deep-copy pass of Lib/copy.py over atoms, lists, tuples and dictionaries.

    Objects live in an explicit store, so that sharing, cycles and identity can be stated.
    A reference is an object's place in the order of allocation: the elements of a tuple exist
    before the tuple does, so they have smaller references, while a list or a dictionary can
    be filled in later and may refer to anything, itself included. */
module DeepCopy {
  type Ref = nat

  datatype Obj =
    | Atom(value: int)
    | List(items: seq<Ref>)
    | Tuple(items: seq<Ref>)
    | Dict(entries: map<Ref, Ref>)
  {
    predicate Mutable() {
      List? || Dict?
    }

    ghost function Children(): set<Ref> {
      match this
      case Atom(_) => {}
      case List(items) => set i | i in items
      case Tuple(items) => set i | i in items
      case Dict(entries) => entries.Keys + entries.Values
    }
  }

  type Heap = map<Ref, Obj>

  /** No dangling references, and tuples are built after their elements. */
  ghost predicate Grounded(h: Heap) {
    forall r, c :: r in h && c in h[r].Children() ==> c in h && (h[r].Tuple? ==> c < r)
  }

  /** An atom, or a tuple of immutable objects: what Python can hash. */
  ghost predicate Immutable(h: Heap, x: Ref)
    requires Grounded(h) && x in h
    decreases x
  {
    match h[x]
    case Atom(_) => true
    case Tuple(items) => forall c :: c in h[x].Children() ==> Immutable(h, c)
    case _ => false
  }

  ghost predicate WellFormed(h: Heap) {
    Grounded(h) &&
    forall r, k :: r in h && h[r].Dict? && k in h[r].entries ==> Immutable(h, k)
  }

  ghost predicate Bounded(h: Heap, next: Ref) {
    forall r :: r in h ==> r < next
  }

  ghost predicate Extends<V>(a: map<Ref, V>, b: map<Ref, V>) {
    forall k :: k in a ==> k in b && b[k] == a[k]
  }

  lemma ExtendsTransitive<V>(a: map<Ref, V>, b: map<Ref, V>, c: map<Ref, V>)
    requires Extends(a, b) && Extends(b, c)
    ensures Extends(a, c)
    ensures forall k :: k in b ==> k in c
  {
  }

  lemma ExtendsAt<V>(a: map<Ref, V>, b: map<Ref, V>, k: Ref)
    requires Extends(a, b) && k in a
    ensures k in b && b[k] == a[k]
  {
  }

  lemma FrameFill(a: Heap, b: Heap, y: Ref, o: Obj, next: Ref)
    requires Extends(a, b) && y !in a && y in b && Bounded(b, next)
    ensures Extends(a, b[y := o]) && Bounded(b[y := o], next)
  {
  }

  // ---------- Reachability ----------

  ghost predicate Edge(h: Heap, a: Ref, b: Ref) {
    a in h && b in h[a].Children()
  }

  ghost predicate Path(h: Heap, p: seq<Ref>) {
    |p| > 0 && forall i :: 0 <= i < |p| - 1 ==> Edge(h, p[i], p[i + 1])
  }

  ghost predicate PathBetween(h: Heap, p: seq<Ref>, a: Ref, b: Ref) {
    Path(h, p) && p[0] == a && p[|p| - 1] == b
  }

  ghost predicate Reachable(h: Heap, a: Ref, b: Ref) {
    exists p :: PathBetween(h, p, a, b)
  }

  lemma ReachableSelf(h: Heap, a: Ref)
    ensures Reachable(h, a, a)
  {
    assert PathBetween(h, [a], a, a);
  }

  lemma ReachableStep(h: Heap, a: Ref, b: Ref, c: Ref)
    requires Reachable(h, a, b) && Edge(h, b, c)
    ensures Reachable(h, a, c)
  {
    var p :| PathBetween(h, p, a, b);
    assert PathBetween(h, p + [c], a, c);
  }

  /** A set that contains the start and is closed under edges contains everything reachable. */
  lemma {:induction false} PathStaysInside(h: Heap, s: iset<Ref>, p: seq<Ref>)
    requires Path(h, p) && p[0] in s
    requires forall a, b :: a in s && Edge(h, a, b) ==> b in s
    ensures p[|p| - 1] in s
  {
    if |p| > 1 {
      assert Edge(h, p[0], p[1]);
      var q := p[1..];
      forall i | 0 <= i < |q| - 1 ensures Edge(h, q[i], q[i + 1]) {
        assert Edge(h, p[i + 1], p[i + 1 + 1]);
      }
      PathStaysInside(h, s, q);
    }
  }

  lemma ReachableInside(h: Heap, s: iset<Ref>, a: Ref)
    requires a in s
    requires forall b, c :: b in s && Edge(h, b, c) ==> c in s
    ensures forall b :: Reachable(h, a, b) ==> b in s
  {
    forall b | Reachable(h, a, b) ensures b in s {
      var p :| PathBetween(h, p, a, b);
      PathStaysInside(h, s, p);
    }
  }

  /** Immutable is the recursive form of "nothing mutable is reachable". */
  lemma {:induction false} ImmutableReachesNothingMutable(h: Heap, x: Ref)
    requires Grounded(h) && x in h
    ensures Immutable(h, x) <==> forall z :: Reachable(h, x, z) && z in h ==> !h[z].Mutable()
  {
    if Immutable(h, x) {
      var s := iset z | z in h && Immutable(h, z);
      ReachableInside(h, s, x);
    } else {
      MutableWitness(h, x);
    }
  }

  lemma {:induction false} MutableWitness(h: Heap, x: Ref)
    requires Grounded(h) && x in h && !Immutable(h, x)
    ensures exists z :: Reachable(h, x, z) && z in h && h[z].Mutable()
    decreases x
  {
    if h[x].Mutable() {
      ReachableSelf(h, x);
    } else {
      var c :| c in h[x].Children() && !Immutable(h, c);
      MutableWitness(h, c);
      var z :| Reachable(h, c, z) && z in h && h[z].Mutable();
      var p :| PathBetween(h, p, c, z);
      assert Edge(h, x, c);
      assert PathBetween(h, [x] + p, x, z);
    }
  }

  // ---------- Copies and isomorphism ----------

  ghost function Renamed(s: seq<Ref>, f: map<Ref, Ref>): (r: seq<Ref>)
    requires forall i :: i in s ==> i in f
    ensures |r| == |s| && forall i :: 0 <= i < |s| ==> r[i] == f[s[i]]
  {
    seq(|s|, i requires 0 <= i < |s| => f[s[i]])
  }

  /** o2 is o1 with every reference renamed by f. */
  ghost predicate CopyOf(o1: Obj, o2: Obj, f: map<Ref, Ref>) {
    (forall c :: c in o1.Children() ==> c in f) &&
    match o1
    case Atom(v) => o2 == o1
    case List(items) => o2 == List(Renamed(items, f))
    case Tuple(items) => o2 == Tuple(Renamed(items, f))
    case Dict(entries) => DictCopy(entries, entries.Keys, o2, f)
  }

  /** o2 is a dictionary that holds the renamed entries of `done`, and nothing else. */
  ghost predicate DictCopy(entries: map<Ref, Ref>, done: set<Ref>, o2: Obj, f: map<Ref, Ref>)
    requires done <= entries.Keys
  {
    o2.Dict? &&
    (forall k :: k in done ==> k in f && entries[k] in f) &&
    o2.entries.Keys == (set k | k in done :: f[k]) &&
    forall k :: k in done ==> o2.entries[f[k]] == f[entries[k]]
  }

  /** f is an isomorphism from the part of h1 reachable from x onto the part of h2 reachable
      from y: it is defined on exactly the nodes reachable from x, it is injective, its values
      are exactly the nodes reachable from y, and it commutes with the contents of every node. */
  ghost predicate Isomorphism(h1: Heap, x: Ref, h2: Heap, y: Ref, f: map<Ref, Ref>) {
    && (forall z :: z in f <==> Reachable(h1, x, z))
    && (forall w :: w in f.Values <==> Reachable(h2, y, w))
    && (forall a, b :: a in f && b in f && f[a] == f[b] ==> a == b)
    && x in f && f[x] == y
    && (forall z :: z in f ==> z in h1 && f[z] in h2 && CopyOf(h1[z], h2[f[z]], f))
  }

  /** The original store h0 is intact, and the memo is injective, keeps exactly the immutable
      objects in place and sends all others to new objects. */
  ghost predicate MemoOk(h0: Heap, h: Heap, memo: map<Ref, Ref>, open: set<Ref>) {
    && WellFormed(h0)
    && Extends(h0, h)
    && (forall x :: x in memo ==> x in h0 && memo[x] in h)
    && (forall x :: x in memo ==> (memo[x] == x <==> Immutable(h0, x)))
    && (forall x :: x in memo && memo[x] in h0 ==> memo[x] == x)
    && (forall a, b :: a in memo && b in memo && memo[a] == memo[b] ==> a == b)
    && (forall x :: x in open ==> x in memo && h0[x].Mutable())
  }

  /** What holds between two steps of the pass: the memo is as above, and every memoised object
      that is not `open` has a complete copy. */
  ghost predicate Partial(h0: Heap, h: Heap, memo: map<Ref, Ref>, open: set<Ref>) {
    MemoOk(h0, h, memo, open) &&
    forall x :: x in memo && x !in open ==> CopyOf(h0[x], h[memo[x]], memo)
  }

  lemma CopyOfMonotone(o1: Obj, o2: Obj, f: map<Ref, Ref>, g: map<Ref, Ref>)
    requires CopyOf(o1, o2, f) && Extends(f, g)
    ensures CopyOf(o1, o2, g)
  {
    if o1.List? || o1.Tuple? {
      assert forall i :: i in o1.items ==> i in o1.Children();
      assert Renamed(o1.items, f) == Renamed(o1.items, g);
    }
  }

  lemma MemoOkRegister(h0: Heap, h: Heap, memo: map<Ref, Ref>, open: set<Ref>, x: Ref, y: Ref)
    requires MemoOk(h0, h, memo, open)
    requires x in h0 && x !in memo && y in h
    requires y == x <==> Immutable(h0, x)
    requires y in h0 ==> y == x
    requires y !in h0 ==> forall a :: a in memo ==> memo[a] != y
    ensures MemoOk(h0, h, memo[x := y], if h0[x].Mutable() then open + {x} else open)
  {
    hide Immutable, Extends, WellFormed;
    var m := memo[x := y];
    forall a | a in memo ensures m[a] != y {
    }
  }

  /** A new memo entry x -> y, for an x that has none and a y that no entry uses. */
  lemma PartialRegister(h0: Heap, h: Heap, memo: map<Ref, Ref>, open: set<Ref>, x: Ref, y: Ref)
    requires Partial(h0, h, memo, open)
    requires x in h0 && x !in memo && y in h
    requires y == x <==> Immutable(h0, x)
    requires y in h0 ==> y == x
    requires y !in h0 ==> forall a :: a in memo ==> memo[a] != y
    requires h0[x].Mutable() || CopyOf(h0[x], h[y], memo[x := y])
    ensures Partial(h0, h, memo[x := y], if h0[x].Mutable() then open + {x} else open)
  {
    MemoOkRegister(h0, h, memo, open, x, y);
    hide CopyOf, Immutable;
    var m := memo[x := y];
    forall z | z in memo && z !in open ensures CopyOf(h0[z], h[memo[z]], m) {
      assert Extends(memo, m);
      CopyOfMonotone(h0[z], h[memo[z]], memo, m);
    }
  }

  lemma PartialBasics(h0: Heap, h: Heap, memo: map<Ref, Ref>, open: set<Ref>, x: Ref)
    requires Partial(h0, h, memo, open) && x in h0
    ensures WellFormed(h0) && x in h && h[x] == h0[x]
    ensures forall c :: c in h0[x].Children() ==> c in h0 && (h0[x].Tuple? ==> c < x)
    ensures h0[x].Mutable() ==> !Immutable(h0, x)
  {
    hide CopyOf;
    assert Grounded(h0);
    forall c | c in h0[x].Children() ensures c in h0 && (h0[x].Tuple? ==> c < x) {
    }
  }

  /** Allocating an object changes nothing that was there. */
  lemma PartialAllocate(h0: Heap, h: Heap, memo: map<Ref, Ref>, open: set<Ref>, y: Ref, o: Obj)
    requires Partial(h0, h, memo, open) && y !in h
    ensures Partial(h0, h[y := o], memo, open)
    ensures y !in h0 && forall a :: a in memo ==> memo[a] != y
  {
  }

  lemma PartialEntry(h0: Heap, h: Heap, memo: map<Ref, Ref>, open: set<Ref>, x: Ref)
    requires Partial(h0, h, memo, open) && x in memo
    ensures x in h0 && memo[x] in h && (memo[x] == x <==> Immutable(h0, x))
  {
  }

  /** Filling in the copy of an open object. */
  lemma PartialFill(h0: Heap, h: Heap, memo: map<Ref, Ref>, open: set<Ref>, x: Ref, o: Obj)
    requires Partial(h0, h, memo, open) && x in open
    ensures Partial(h0, h[memo[x] := o], memo, open)
  {
    assert memo[x] !in h0;
  }

  /** An open object whose copy has become complete. */
  lemma PartialClose(h0: Heap, h: Heap, memo: map<Ref, Ref>, open: set<Ref>, x: Ref)
    requires Partial(h0, h, memo, open + {x}) && x in memo
    requires CopyOf(h0[x], h[memo[x]], memo)
    ensures Partial(h0, h, memo, open)
  {
  }

  lemma DictCopyMonotone(entries: map<Ref, Ref>, done: set<Ref>, o: Obj, f: map<Ref, Ref>, g: map<Ref, Ref>)
    requires done <= entries.Keys && DictCopy(entries, done, o, f) && Extends(f, g)
    ensures DictCopy(entries, done, o, g)
  {
    assert (set k | k in done :: f[k]) == (set k | k in done :: g[k]);
  }

  /** One more entry of a dictionary, under a renaming that keeps keys apart. */
  lemma DictCopyStep(entries: map<Ref, Ref>, done: set<Ref>, o: Obj, f: map<Ref, Ref>, key: Ref)
    requires done <= entries.Keys && DictCopy(entries, done, o, f)
    requires key in entries && key !in done && key in f && entries[key] in f
    requires forall a :: a in done ==> f[a] != f[key]
    ensures DictCopy(entries, done + {key}, Dict(o.entries[f[key] := f[entries[key]]]), f)
  {
    var e2 := o.entries[f[key] := f[entries[key]]];
    assert e2.Keys == o.entries.Keys + {f[key]};
    assert (set k | k in done + {key} :: f[k]) == (set k | k in done :: f[k]) + {f[key]};
  }

  lemma PartialInjective(h0: Heap, h: Heap, memo: map<Ref, Ref>, open: set<Ref>, done: set<Ref>, key: Ref)
    requires Partial(h0, h, memo, open) && key in memo && key !in done
    ensures forall a :: a in done && a in memo ==> memo[a] != memo[key]
  {
  }

  lemma RenamedStep(items: seq<Ref>, i: nat, f: map<Ref, Ref>, g: map<Ref, Ref>)
    requires i < |items| && Extends(f, g) && items[i] in g
    requires forall j :: 0 <= j < i ==> items[j] in f
    ensures Renamed(items[..i + 1], g) == Renamed(items[..i], f) + [g[items[i]]]
  {
  }

  lemma SequenceCopied(items: seq<Ref>, f: map<Ref, Ref>)
    requires forall i :: 0 <= i < |items| ==> items[i] in f
    ensures CopyOf(List(items), List(Renamed(items, f)), f)
    ensures CopyOf(Tuple(items), Tuple(Renamed(items, f)), f)
  {
  }

  /** The list x is being copied into y and its first i elements are there. */
  ghost predicate ListSoFar(h0: Heap, h: Heap, memo: map<Ref, Ref>, open: set<Ref>, x: Ref, y: Ref, i: nat)
    requires x in h0 && h0[x].List? && i <= |h0[x].items|
  {
    var items := h0[x].items;
    Partial(h0, h, memo, open + {x}) && x in memo && memo[x] == y && y in h &&
    (forall j :: 0 <= j < i ==> items[j] in memo) && h[y] == List(Renamed(items[..i], memo))
  }

  lemma ListStart(h0: Heap, h: Heap, memo: map<Ref, Ref>, open: set<Ref>, x: Ref, y: Ref)
    requires Partial(h0, h, memo, open) && x in h0 && x !in memo && h0[x].List? && y !in h
    ensures x in h && h[x] == h0[x]
    ensures ListSoFar(h0, h[y := List([])], memo[x := y], open, x, y, 0)
  {
    PartialAllocate(h0, h, memo, open, y, List([]));
    PartialRegister(h0, h[y := List([])], memo, open, x, y);
  }

  lemma ListStep(h0: Heap, h1: Heap, m1: map<Ref, Ref>, h2: Heap, m2: map<Ref, Ref>,
                 open: set<Ref>, x: Ref, y: Ref, i: nat)
    requires x in h0 && h0[x].List? && i < |h0[x].items|
    requires ListSoFar(h0, h1, m1, open, x, y, i)
    requires Partial(h0, h2, m2, open + {x}) && Extends(h1, h2) && Extends(m1, m2) && h0[x].items[i] in m2
    ensures y in h2 && h2[y].List?
    ensures ListSoFar(h0, h2[y := List(h2[y].items + [m2[h0[x].items[i]]])], m2, open, x, y, i + 1)
  {
    var o := List(h2[y].items + [m2[h0[x].items[i]]]);
    RenamedStep(h0[x].items, i, m1, m2);
    PartialFill(h0, h2, m2, open + {x}, x, o);
  }

  lemma ListKeepsPartial(h0: Heap, h: Heap, memo: map<Ref, Ref>, open: set<Ref>, x: Ref, y: Ref, i: nat)
    requires x in h0 && h0[x].List? && i <= |h0[x].items| && ListSoFar(h0, h, memo, open, x, y, i)
    ensures Partial(h0, h, memo, open + {x}) && y in h && h[y].List?
  {
  }

  lemma ListDone(h0: Heap, h: Heap, memo: map<Ref, Ref>, open: set<Ref>, x: Ref, y: Ref)
    requires x in h0 && h0[x].List? && ListSoFar(h0, h, memo, open, x, y, |h0[x].items|)
    ensures Partial(h0, h, memo, open) && x in memo && memo[x] == y
  {
    var items := h0[x].items;
    assert items[..|items|] == items;
    SequenceCopied(items, memo);
    PartialClose(h0, h, memo, open, x);
  }

  /** The dictionary x is being copied into y and the entries of `done` are there. */
  ghost predicate DictSoFar(h0: Heap, h: Heap, memo: map<Ref, Ref>, open: set<Ref>, x: Ref, y: Ref, done: set<Ref>)
    requires x in h0 && h0[x].Dict? && done <= h0[x].entries.Keys
  {
    Partial(h0, h, memo, open + {x}) && x in memo && memo[x] == y && y in h &&
    DictCopy(h0[x].entries, done, h[y], memo)
  }

  lemma DictStart(h0: Heap, h: Heap, memo: map<Ref, Ref>, open: set<Ref>, x: Ref, y: Ref)
    requires Partial(h0, h, memo, open) && x in h0 && x !in memo && h0[x].Dict? && y !in h
    ensures x in h && h[x] == h0[x]
    ensures DictSoFar(h0, h[y := Dict(map[])], memo[x := y], open, x, y, {})
  {
    PartialAllocate(h0, h, memo, open, y, Dict(map[]));
    PartialRegister(h0, h[y := Dict(map[])], memo, open, x, y);
  }

  lemma DictStep(h0: Heap, h1: Heap, m1: map<Ref, Ref>, h2: Heap, m2: map<Ref, Ref>,
                 open: set<Ref>, x: Ref, y: Ref, done: set<Ref>, key: Ref)
    requires x in h0 && h0[x].Dict? && done <= h0[x].entries.Keys && key in h0[x].entries && key !in done
    requires DictSoFar(h0, h1, m1, open, x, y, done)
    requires Partial(h0, h2, m2, open + {x}) && Extends(h1, h2) && Extends(m1, m2)
    requires key in m2 && h0[x].entries[key] in m2
    ensures y in h2 && h2[y].Dict?
    ensures var entries := h2[y].entries[m2[key] := m2[h0[x].entries[key]]];
      DictSoFar(h0, h2[y := Dict(entries)], m2, open, x, y, done + {key})
  {
    var o := Dict(h2[y].entries[m2[key] := m2[h0[x].entries[key]]]);
    hide Partial;
    DictCopyMonotone(h0[x].entries, done, h1[y], m1, m2);
    PartialInjective(h0, h2, m2, open + {x}, done, key);
    DictCopyStep(h0[x].entries, done, h2[y], m2, key);
    assert x in open + {x};
    PartialFill(h0, h2, m2, open + {x}, x, o);
  }

  lemma DictKeepsPartial(h0: Heap, h: Heap, memo: map<Ref, Ref>, open: set<Ref>, x: Ref, y: Ref, done: set<Ref>)
    requires x in h0 && h0[x].Dict? && done <= h0[x].entries.Keys && DictSoFar(h0, h, memo, open, x, y, done)
    ensures Partial(h0, h, memo, open + {x}) && y in h && h[y].Dict?
  {
  }

  lemma DictDone(h0: Heap, h: Heap, memo: map<Ref, Ref>, open: set<Ref>, x: Ref, y: Ref)
    requires x in h0 && h0[x].Dict? && DictSoFar(h0, h, memo, open, x, y, h0[x].entries.Keys)
    ensures Partial(h0, h, memo, open) && x in memo && memo[x] == y
  {
    PartialClose(h0, h, memo, open, x);
  }

  /** A tuple with a copied element that changed gets a new object ... */
  lemma TupleChanged(h0: Heap, h: Heap, memo: map<Ref, Ref>, open: set<Ref>, x: Ref, y: Ref, i: nat)
    requires Partial(h0, h, memo, open) && x in h0 && x !in memo && h0[x].Tuple? && y !in h
    requires forall j :: 0 <= j < |h0[x].items| ==> h0[x].items[j] in memo
    requires i < |h0[x].items| && memo[h0[x].items[i]] != h0[x].items[i]
    ensures Partial(h0, h[y := Tuple(Renamed(h0[x].items, memo))], memo[x := y], open)
  {
    var items := h0[x].items;
    assert items[i] in h0[x].Children();
    PartialAllocate(h0, h, memo, open, y, Tuple(Renamed(items, memo)));
    assert Renamed(items, memo[x := y]) == Renamed(items, memo);
    SequenceCopied(items, memo[x := y]);
    PartialRegister(h0, h[y := Tuple(Renamed(items, memo))], memo, open, x, y);
  }

  /** ... and a tuple whose elements are all their own copies stays in place. */
  lemma TupleUnchanged(h0: Heap, h: Heap, memo: map<Ref, Ref>, open: set<Ref>, x: Ref)
    requires Partial(h0, h, memo, open) && x in h0 && x !in memo && h0[x].Tuple?
    requires forall j :: 0 <= j < |h0[x].items| ==> h0[x].items[j] in memo
    requires Renamed(h0[x].items, memo) == h0[x].items
    ensures Partial(h0, h, memo[x := x], open)
  {
    var items := h0[x].items;
    forall c | c in h0[x].Children() ensures Immutable(h0, c) {
      var j :| 0 <= j < |items| && items[j] == c;
      assert Renamed(items, memo)[j] == items[j];
    }
    assert Renamed(items, memo[x := x]) == Renamed(items, memo);
    SequenceCopied(items, memo[x := x]);
    PartialRegister(h0, h, memo, open, x, x);
  }

  /** A finished memo is an isomorphism on what the root reaches. */
  ghost function Restricted(h0: Heap, x: Ref, memo: map<Ref, Ref>): map<Ref, Ref> {
    map z | z in memo && Reachable(h0, x, z) :: memo[z]
  }

  lemma MemoClosed(h0: Heap, h: Heap, memo: map<Ref, Ref>, x: Ref)
    requires Partial(h0, h, memo, {}) && x in memo
    ensures forall z :: Reachable(h0, x, z) ==> z in memo
  {
    var s := iset z | z in memo;
    forall b, c | b in s && Edge(h0, b, c) ensures c in s {
      assert CopyOf(h0[b], h[memo[b]], memo);
    }
    ReachableInside(h0, s, x);
  }

  /** The children of a copy are the images of the children. */
  lemma CopyChildren(o1: Obj, o2: Obj, f: map<Ref, Ref>)
    requires CopyOf(o1, o2, f)
    ensures forall c :: c in o1.Children() ==> f[c] in o2.Children()
    ensures forall d :: d in o2.Children() ==> exists c :: c in o1.Children() && f[c] == d
  {
    forall c | c in o1.Children() ensures f[c] in o2.Children() {
      match o1
      case Atom(_) =>
      case List(items) => var i :| 0 <= i < |items| && items[i] == c; assert o2.items[i] == f[c];
      case Tuple(items) => var i :| 0 <= i < |items| && items[i] == c; assert o2.items[i] == f[c];
      case Dict(entries) =>
        if c !in entries {
          var k :| k in entries && entries[k] == c;
          assert o2.entries[f[k]] == f[c];
        }
    }
    forall d | d in o2.Children() ensures exists c :: c in o1.Children() && f[c] == d {
      match o1
      case Atom(_) =>
      case List(items) => var i :| 0 <= i < |o2.items| && o2.items[i] == d; assert items[i] in o1.Children();
      case Tuple(items) => var i :| 0 <= i < |o2.items| && o2.items[i] == d; assert items[i] in o1.Children();
      case Dict(entries) =>
        if d in o2.entries {
          var k :| k in entries && f[k] == d;
          assert k in o1.Children();
        } else {
          var e :| e in o2.entries && o2.entries[e] == d;
          var k :| k in entries && f[k] == e;
          assert entries[k] in o1.Children();
        }
    }
  }

  lemma {:induction false} ImagePath(h0: Heap, h: Heap, memo: map<Ref, Ref>, p: seq<Ref>)
    requires Partial(h0, h, memo, {}) && Path(h0, p)
    requires forall i :: 0 <= i < |p| ==> p[i] in memo
    ensures Reachable(h, memo[p[0]], memo[p[|p| - 1]])
  {
    var q := Renamed(p, memo);
    forall i | 0 <= i < |q| - 1 ensures Edge(h, q[i], q[i + 1]) {
      assert Edge(h0, p[i], p[i + 1]);
      CopyChildren(h0[p[i]], h[memo[p[i]]], memo);
    }
    assert PathBetween(h, q, memo[p[0]], memo[p[|p| - 1]]);
  }

  lemma ImageReachable(h0: Heap, h: Heap, memo: map<Ref, Ref>, x: Ref)
    requires Partial(h0, h, memo, {}) && x in memo
    ensures forall z :: Reachable(h0, x, z) ==> z in memo && Reachable(h, memo[x], memo[z])
  {
    MemoClosed(h0, h, memo, x);
    hide Partial;
    forall z | Reachable(h0, x, z) ensures Reachable(h, memo[x], memo[z]) {
      var p :| PathBetween(h0, p, x, z);
      forall i | 0 <= i < |p| ensures p[i] in memo {
        assert PathBetween(h0, p[..i + 1], x, p[i]);
      }
      ImagePath(h0, h, memo, p);
    }
  }

  ghost predicate IsImage(h0: Heap, memo: map<Ref, Ref>, x: Ref, w: Ref) {
    exists z :: Reachable(h0, x, z) && z in memo && memo[z] == w
  }

  lemma ImageClosed(h0: Heap, h: Heap, memo: map<Ref, Ref>, x: Ref, b: Ref, d: Ref)
    requires Partial(h0, h, memo, {}) && IsImage(h0, memo, x, b) && Edge(h, b, d)
    ensures IsImage(h0, memo, x, d)
  {
    var z :| Reachable(h0, x, z) && z in memo && memo[z] == b;
    CopyChildren(h0[z], h[memo[z]], memo);
    var c :| c in h0[z].Children() && memo[c] == d;
    assert Edge(h0, z, c);
    ReachableStep(h0, x, z, c);
  }

  lemma ReachableIsImage(h0: Heap, h: Heap, memo: map<Ref, Ref>, x: Ref)
    requires Partial(h0, h, memo, {}) && x in memo
    ensures forall w :: Reachable(h, memo[x], w) ==> IsImage(h0, memo, x, w)
  {
    hide Partial;
    var s := iset w | IsImage(h0, memo, x, w);
    ReachableSelf(h0, x);
    forall b, d | b in s && Edge(h, b, d) ensures d in s {
      ImageClosed(h0, h, memo, x, b, d);
    }
    ReachableInside(h, s, memo[x]);
  }

  lemma RestrictedCopies(h0: Heap, h: Heap, memo: map<Ref, Ref>, x: Ref, z: Ref)
    requires Partial(h0, h, memo, {}) && x in memo && z in memo && Reachable(h0, x, z)
    ensures z in h0 && memo[z] in h && CopyOf(h0[z], h[memo[z]], Restricted(h0, x, memo))
  {
    hide MemoOk, Reachable;
    var f := Restricted(h0, x, memo);
    PartialEntry(h0, h, memo, {}, z);
    assert CopyOf(h0[z], h[memo[z]], memo);
    hide Partial;
    forall c | c in h0[z].Children() ensures c in f {
      assert Edge(h0, z, c);
      ReachableStep(h0, x, z, c);
    }
    if h0[z].List? || h0[z].Tuple? {
      assert forall i :: i in h0[z].items ==> i in h0[z].Children();
      assert Renamed(h0[z].items, f) == Renamed(h0[z].items, memo);
    }
  }

  /** The main theorem about a finished pass. */
  lemma FinishedMemoIsIsomorphism(h0: Heap, h: Heap, memo: map<Ref, Ref>, x: Ref)
    requires Partial(h0, h, memo, {}) && x in memo
    ensures Isomorphism(h0, x, h, memo[x], Restricted(h0, x, memo))
  {
    var f := Restricted(h0, x, memo);
    assert forall a, b :: a in f && b in f && f[a] == f[b] ==> a == b;
    hide Partial, CopyOf;
    ReachableSelf(h0, x);
    ImageReachable(h0, h, memo, x);
    ReachableIsImage(h0, h, memo, x);
    forall w ensures w in f.Values <==> Reachable(h, memo[x], w) {
      if Reachable(h, memo[x], w) {
        var z :| Reachable(h0, x, z) && z in memo && memo[z] == w;
        assert z in f && f[z] == w;
      }
    }
    forall z | z in f ensures z in h0 && f[z] in h && CopyOf(h0[z], h[f[z]], f) {
      RestrictedCopies(h0, h, memo, x, z);
    }
  }

  /** The copy shares no list or dictionary with the original store, and an object is its own
      copy exactly when nothing mutable is reachable from it. */
  lemma FinishedMemoSeparates(h0: Heap, h: Heap, memo: map<Ref, Ref>, x: Ref)
    requires Partial(h0, h, memo, {}) && x in memo
    ensures forall w :: Reachable(h, memo[x], w) ==> w in h && (h[w].Mutable() ==> w !in h0)
    ensures forall z :: Reachable(h0, x, z) ==>
      z in memo && (memo[z] == z <==> forall v :: Reachable(h0, z, v) && v in h0 ==> !h0[v].Mutable())
  {
    ImageReachable(h0, h, memo, x);
    ReachableIsImage(h0, h, memo, x);
    forall w | Reachable(h, memo[x], w) ensures w in h && (h[w].Mutable() ==> w !in h0) {
      var z :| Reachable(h0, x, z) && z in memo && memo[z] == w;
      assert CopyOf(h0[z], h[w], memo);
    }
    forall z | Reachable(h0, x, z)
      ensures z in memo && (memo[z] == z <==> forall v :: Reachable(h0, z, v) && v in h0 ==> !h0[v].Mutable())
    {
      PartialEntry(h0, h, memo, {}, z);
      PartialBasics(h0, h, memo, {}, z);
      ImmutableReachesNothingMutable(h0, z);
    }
  }

  // ---------- The pass itself ----------

  /** Every nested call starts with fewer of these, or on a smaller tuple. */
  ghost function Pending(h0: Heap, memo: map<Ref, Ref>): set<Ref> {
    set z | z in h0 && h0[z].Mutable() && z !in memo
  }

  lemma PendingShrinks(h0: Heap, m0: map<Ref, Ref>, m1: map<Ref, Ref>, x: Ref)
    requires Extends(m0, m1)
    ensures Pending(h0, m1) <= Pending(h0, m0)
    ensures x in h0 && h0[x].Mutable() && x !in m0 && x in m1 ==> Pending(h0, m1) < Pending(h0, m0)
  {
    if x in h0 && h0[x].Mutable() && x !in m0 && x in m1 {
      assert x in Pending(h0, m0);
    }
  }

  /** One interpreter store with one memo. The methods follow the dispatch table of copy.py. */
  class Copier {
    var heap: Heap
    var next: Ref
    var memo: map<Ref, Ref>

    ghost predicate Inv(h0: Heap, open: set<Ref>)
      reads this
    {
      Partial(h0, heap, memo, open) && Bounded(heap, next)
    }

    constructor (h: Heap, n: Ref)
      requires Bounded(h, n)
      ensures heap == h && next == n && memo == map[]
    {
      heap, next, memo := h, n, map[];
    }

    method Allocate(o: Obj) returns (y: Ref)
      requires Bounded(heap, next)
      modifies this
      ensures y == old(next) && y !in old(heap)
      ensures heap == old(heap)[y := o] && memo == old(memo)
      ensures Bounded(heap, next)
    {
      y := next;
      heap := heap[y := o];
      next := next + 1;
    }

    method DeepCopy(x: Ref, ghost h0: Heap, ghost open: set<Ref>) returns (y: Ref)
      requires Inv(h0, open) && x in h0
      modifies this
      ensures Inv(h0, open)
      ensures Extends(old(heap), heap) && Extends(old(memo), memo)
      ensures x in memo && y == memo[x]
      decreases Pending(h0, memo), x, 1
    {
      if x in memo {
        return memo[x];
      }
      hide Partial;
      PartialBasics(h0, heap, memo, open, x);
      match heap[x] {
        case Atom(_) => y := CopyAtomic(x, h0, open);
        case List(_) => y := CopyList(x, h0, open);
        case Tuple(_) => y := CopyTuple(x, h0, open);
        case Dict(_) => y := CopyDict(x, h0, open);
      }
      assert memo[x := y] == memo;
      memo := memo[x := y];
    }

    method CopyAtomic(x: Ref, ghost h0: Heap, ghost open: set<Ref>) returns (y: Ref)
      requires Inv(h0, open) && x in h0 && x !in memo && h0[x].Atom?
      modifies this
      ensures Inv(h0, open)
      ensures heap == old(heap) && memo == old(memo)[x := y] && y == x
    {
      y := x;
      PartialRegister(h0, heap, memo, open, x, y);
      memo := memo[x := y];
    }

    method CopyList(x: Ref, ghost h0: Heap, ghost open: set<Ref>) returns (y: Ref)
      requires Inv(h0, open) && x in h0 && x !in memo && h0[x].List?
      modifies this
      ensures Inv(h0, open)
      ensures Extends(old(heap), heap) && Extends(old(memo), memo)
      ensures x in memo && y == memo[x]
      decreases Pending(h0, memo), x, 0
    {
      hide Partial, ListSoFar, Pending;
      PartialBasics(h0, heap, memo, open, x);
      ListStart(h0, heap, memo, open, x, next);
      var items := heap[x].items;
      y := Allocate(List([]));
      memo := memo[x := y];
      for i := 0 to |items|
        invariant ListSoFar(h0, heap, memo, open, x, y, i) && Bounded(heap, next)
        invariant Extends(old(heap), heap) && Extends(old(memo), memo) && x in memo && y !in old(heap)
      {
        assert items[i] in h0[x].Children();
        PendingShrinks(h0, old(memo), memo, x);
        ghost var h1, m1 := heap, memo;
        ListKeepsPartial(h0, heap, memo, open, x, y, i);
        var b := DeepCopy(items[i], h0, open + {x});
        ListStep(h0, h1, m1, heap, memo, open, x, y, i);
        heap := heap[y := List(heap[y].items + [b])];
      }
      ListDone(h0, heap, memo, open, x, y);
    }

    method CopyTuple(x: Ref, ghost h0: Heap, ghost open: set<Ref>) returns (y: Ref)
      requires Inv(h0, open) && x in h0 && x !in memo && h0[x].Tuple?
      modifies this
      ensures Inv(h0, open)
      ensures Extends(old(heap), heap) && Extends(old(memo), memo)
      ensures x in memo && y == memo[x]
      decreases Pending(h0, memo), x, 0
    {
      hide Partial, CopyOf, Pending;
      PartialBasics(h0, heap, memo, open, x);
      var items := heap[x].items;
      var ys: seq<Ref> := [];
      for i := 0 to |items|
        invariant Inv(h0, open)
        invariant Extends(old(heap), heap) && Extends(old(memo), memo)
        invariant forall j :: 0 <= j < i ==> items[j] in memo
        invariant ys == Renamed(items[..i], memo)
      {
        assert items[i] in h0[x].Children();
        PendingShrinks(h0, old(memo), memo, x);
        ghost var before := memo;
        var b := DeepCopy(items[i], h0, open);
        RenamedStep(items, i, before, memo);
        ys := ys + [b];
      }
      assert items[..|items|] == items;
      if x in memo {
        // a list inside the tuple led back to it: the inner call's tuple is the copy
        return memo[x];
      }
      var i := 0;
      while i < |items| && items[i] == ys[i]
        invariant 0 <= i <= |items|
        invariant forall j :: 0 <= j < i ==> items[j] == ys[j]
      {
        i := i + 1;
      }
      if i < |items| {
        TupleChanged(h0, heap, memo, open, x, next, i);
        y := Allocate(Tuple(ys));
      } else {
        assert ys == items;
        TupleUnchanged(h0, heap, memo, open, x);
        y := x;
      }
      memo := memo[x := y];
    }

    /** One entry of a dictionary: the value is copied before the key. */
    method CopyEntry(key: Ref, value: Ref, ghost h0: Heap, ghost open: set<Ref>) returns (key': Ref, value': Ref)
      requires Inv(h0, open) && key in h0 && value in h0
      modifies this
      ensures Inv(h0, open)
      ensures Extends(old(heap), heap) && Extends(old(memo), memo)
      ensures key in memo && key' == memo[key] && value in memo && value' == memo[value]
      decreases Pending(h0, memo), key + value + 1, 0
    {
      hide Partial, Pending;
      value' := DeepCopy(value, h0, open);
      ghost var h, m := heap, memo;
      PendingShrinks(h0, old(memo), m, value);
      key' := DeepCopy(key, h0, open);
      ExtendsTransitive(old(heap), h, heap);
      ExtendsTransitive(old(memo), m, memo);
      ExtendsAt(m, memo, value);
    }

    method CopyDict(x: Ref, ghost h0: Heap, ghost open: set<Ref>) returns (y: Ref)
      requires Inv(h0, open) && x in h0 && x !in memo && h0[x].Dict?
      modifies this
      ensures Inv(h0, open)
      ensures Extends(old(heap), heap) && Extends(old(memo), memo)
      ensures x in memo && y == memo[x]
      decreases Pending(h0, memo), x, 0
    {
      hide Partial, DictSoFar, Pending;
      PartialBasics(h0, heap, memo, open, x);
      DictStart(h0, heap, memo, open, x, next);
      var entries := heap[x].entries;
      y := Allocate(Dict(map[]));
      memo := memo[x := y];
      var keys := entries.Keys;
      assert entries.Keys - keys == {};
      hide Extends, Bounded;
      while keys != {}
        invariant keys <= entries.Keys
        invariant DictSoFar(h0, heap, memo, open, x, y, entries.Keys - keys) && Bounded(heap, next)
        invariant Extends(old(heap), heap) && Extends(old(memo), memo) && x in memo && y !in old(heap)
      {
        var key :| key in keys;
        assert key in h0[x].Children() && entries[key] in h0[x].Children();
        PendingShrinks(h0, old(memo), memo, x);
        ghost var h1, m1 := heap, memo;
        DictKeepsPartial(h0, heap, memo, open, x, y, entries.Keys - keys);
        var key', value := CopyEntry(key, entries[key], h0, open + {x});
        ExtendsTransitive(old(heap), h1, heap);
        ExtendsTransitive(old(memo), m1, memo);
        FrameFill(old(heap), heap, y, Dict(heap[y].entries[key' := value]), next);
        DictStep(h0, h1, m1, heap, memo, open, x, y, entries.Keys - keys, key);
        heap := heap[y := Dict(heap[y].entries[key' := value])];
        assert entries.Keys - (keys - {key}) == entries.Keys - keys + {key};
        keys := keys - {key};
      }
      assert entries.Keys - {} == entries.Keys;
      DictDone(h0, heap, memo, open, x, y);
    }

    /** deepcopy(x) as a caller sees it. The whole old store survives, the result is the root of
        an isomorphic graph, no list or dictionary is shared, and exactly the objects from which
        nothing mutable can be reached are their own copies. */
    method Copy(x: Ref) returns (y: Ref, ghost f: map<Ref, Ref>)
      requires WellFormed(heap) && x in heap && Bounded(heap, next)
      modifies this
      ensures Extends(old(heap), heap)
      ensures Isomorphism(old(heap), x, heap, y, f)
      ensures forall w :: Reachable(heap, y, w) && heap[w].Mutable() ==> w !in old(heap)
      ensures forall z :: z in f ==>
        (f[z] == z <==> forall v :: Reachable(old(heap), z, v) && v in old(heap) ==> !old(heap)[v].Mutable())
    {
      memo := map[];
      ghost var h0 := heap;
      y := DeepCopy(x, h0, {});
      f := Restricted(h0, x, memo);
      FinishedMemoIsIsomorphism(h0, heap, memo, x);
      FinishedMemoSeparates(h0, heap, memo, x);
    }
  }
}
