/** Shell patterns of Lib/fnmatch.py: the translation to regular expressions, and the test that the
    greedy match of the regular expression is as long as the name. */
module Fnmatch {
  import opened Basics

  // ---------- Shell patterns ----------

  datatype Token =
    | Star
    | Any
    | Literal(c: char)
    | Set(negated: bool, body: string)

  /** Membership in the body of a bracket set, with ranges. */
  function InSet(body: string, x: char): bool
    decreases |body|
  {
    if body == "" then false
    else if |body| >= 3 && body[1] == '-' then body[0] <= x <= body[2] || InSet(body[3..], x)
    else body[0] == x || InSet(body[1..], x)
  }

  predicate TokenAccepts(t: Token, x: char) {
    match t
    case Star => false
    case Any => true
    case Literal(c) => x == c
    case Set(negated, body) => InSet(body, x) != negated
  }

  /** The language of a shell pattern, on the part i..j of a name. */
  ghost predicate Glob(ts: seq<Token>, s: string, i: nat, j: nat)
    requires i <= j <= |s|
    decreases |ts|
  {
    if ts == [] then i == j
    else if ts[0].Star? then exists k: nat :: i <= k <= j && Glob(ts[1..], s, k, j)
    else i < j && TokenAccepts(ts[0], s[i]) && Glob(ts[1..], s, i + 1, j)
  }

  ghost predicate NoNewline(s: string, i: nat, j: nat)
    requires i <= j <= |s|
  {
    forall p :: i <= p < j ==> s[p] != '\n'
  }

  /** The same, except that '*' and '?' stay within a line. */
  ghost predicate LineGlob(ts: seq<Token>, s: string, i: nat, j: nat)
    requires i <= j <= |s|
    decreases |ts|
  {
    if ts == [] then i == j
    else if ts[0].Star? then exists k: nat :: i <= k <= j && NoNewline(s, i, k) && LineGlob(ts[1..], s, k, j)
    else i < j && TokenAccepts(ts[0], s[i]) && (ts[0].Any? ==> s[i] != '\n') && LineGlob(ts[1..], s, i + 1, j)
  }

  /** The first ']' at or after position i, or the end. */
  function FindClose(s: string, i: nat): (j: nat)
    requires i <= |s|
    ensures i <= j <= |s| && (j < |s| ==> s[j] == ']')
    ensures forall k :: i <= k < j ==> s[k] != ']'
    decreases |s| - i
  {
    if i == |s| || s[i] == ']' then i else FindClose(s, i + 1)
  }

  /** Where the set ends whose contents start at i: a '!' and a ']' that come first do not count. */
  function SetEnd(pat: string, i: nat): (j: nat)
    requires i <= |pat|
    ensures i <= j <= |pat| && (j < |pat| ==> i < j && pat[j] == ']')
  {
    var j1 := if i < |pat| && pat[i] == '!' then i + 1 else i;
    var j2 := if j1 < |pat| && pat[j1] == ']' then j1 + 1 else j1;
    FindClose(pat, j2)
  }

  /** The token that stuff, the contents of a set, stands for. */
  function SetToken(stuff: string): Token
    requires stuff != ""
  {
    if stuff[0] == '!' then Set(true, stuff[1..]) else Set(false, stuff)
  }

  function Tokenize(pat: string): seq<Token>
    decreases |pat|
  {
    if pat == "" then []
    else if pat[0] == '*' then [Star] + Tokenize(pat[1..])
    else if pat[0] == '?' then [Any] + Tokenize(pat[1..])
    else if pat[0] == '[' && SetEnd(pat, 1) < |pat| then
      [SetToken(pat[1..SetEnd(pat, 1)])] + Tokenize(pat[SetEnd(pat, 1) + 1..])
    else [Literal(pat[0])] + Tokenize(pat[1..])
  }

  predicate TokenOk(t: Token) {
    match t
    case Literal(c) => c != '*' && c != '?'
    case Set(_, body) => body != "" && ']' !in body[1..]
    case _ => true
  }

  lemma SetTokenOk(pat: string)
    requires pat != "" && pat[0] == '[' && SetEnd(pat, 1) < |pat|
    ensures TokenOk(SetToken(pat[1..SetEnd(pat, 1)]))
  {
    var j := SetEnd(pat, 1);
    var stuff := pat[1..j];
    forall k | 0 <= k < |stuff| ensures stuff[k] == pat[k + 1] {
    }
  }

  lemma {:induction false} TokensOk(pat: string)
    ensures forall t :: t in Tokenize(pat) ==> TokenOk(t)
    decreases |pat|
  {
    if pat != "" {
      if pat[0] == '[' && SetEnd(pat, 1) < |pat| {
        SetTokenOk(pat);
        TokensOk(pat[SetEnd(pat, 1) + 1..]);
      } else {
        TokensOk(pat[1..]);
      }
    }
  }

  // ---------- Regular expressions ----------

  /** The part of the old regex syntax that the translation uses. */
  datatype Atom = Dot | Char(c: char) | Class(negated: bool, body: string)

  datatype Item = Item(atom: Atom, starred: bool)

  predicate AtomAccepts(a: Atom, x: char) {
    match a
    case Dot => x != '\n'
    case Char(c) => x == c
    case Class(negated, body) => InSet(body, x) != negated
  }

  predicate Special(c: char) {
    c == '\\' || c == '.' || c == '+' || c == '^' || c == '$'
  }

  /** The atom that r starts with, and what follows it. */
  function ParseAtom(r: string): Option<(Atom, string)>
    requires r != ""
  {
    if r[0] == '\\' then
      if |r| >= 2 && (Special(r[1]) || r[1] == '[') then Some((Char(r[1]), r[2..])) else None
    else if r[0] == '.' then Some((Dot, r[1..]))
    else if r[0] == '[' then
      var negated := |r| >= 2 && r[1] == '^';
      var start := if negated then 2 else 1;
      if start >= |r| then None
      else
        var e := FindClose(r, start + 1);
        if e == |r| then None else Some((Class(negated, r[start..e]), r[e + 1..]))
    else if Special(r[0]) || r[0] == '*' || r[0] == '?' then None
    else Some((Char(r[0]), r[1..]))
  }

  function ParseItem(r: string): (o: Option<(Item, string)>)
    requires r != ""
    ensures o.Some? ==> |o.value.1| < |r|
  {
    match ParseAtom(r)
    case None => None
    case Some((a, rest)) =>
      if rest != "" && rest[0] == '*' then Some((Item(a, true), rest[1..])) else Some((Item(a, false), rest))
  }

  function ParseRegex(r: string): Option<seq<Item>>
    decreases |r|
  {
    if r == "" then Some([])
    else match ParseItem(r)
      case None => None
      case Some((item, rest)) =>
        match ParseRegex(rest)
        case None => None
        case Some(items) => Some([item] + items)
  }

  predicate AllAccepted(a: Atom, s: string, i: nat, k: nat)
    requires i <= k <= |s|
  {
    forall p :: i <= p < k ==> AtomAccepts(a, s[p])
  }

  /** The language of a regular expression, on the part i..j of a string. */
  ghost predicate Matches(items: seq<Item>, s: string, i: nat, j: nat)
    requires i <= j <= |s|
    decreases |items|
  {
    if items == [] then i == j
    else if items[0].starred then
      exists k: nat :: i <= k <= j && AllAccepted(items[0].atom, s, i, k) && Matches(items[1..], s, k, j)
    else i < j && AtomAccepts(items[0].atom, s[i]) && Matches(items[1..], s, i + 1, j)
  }

  /** How far a repetition can run. */
  function RunEnd(a: Atom, s: string, i: nat): (e: nat)
    requires i <= |s|
    ensures i <= e <= |s| && AllAccepted(a, s, i, e) && (e < |s| ==> !AtomAccepts(a, s[e]))
    decreases |s| - i
  {
    if i < |s| && AtomAccepts(a, s[i]) then RunEnd(a, s, i + 1) else i
  }

  /** The matcher: from position i, the end of the first match found when every repetition is tried
      as long as possible first and shortened only when the rest does not match. */
  function Greedy(items: seq<Item>, s: string, i: nat): (r: Option<nat>)
    requires i <= |s|
    ensures r.Some? ==> i <= r.value <= |s|
    decreases |items|, 0
  {
    if items == [] then Some(i)
    else if items[0].starred then Shorten(items, s, i, RunEnd(items[0].atom, s, i))
    else if i < |s| && AtomAccepts(items[0].atom, s[i]) then Greedy(items[1..], s, i + 1)
    else None
  }

  function Shorten(items: seq<Item>, s: string, i: nat, k: nat): (r: Option<nat>)
    requires items != [] && i <= k <= |s|
    ensures r.Some? ==> i <= r.value <= |s|
    decreases |items|, 0, k - i
  {
    var r := Greedy(items[1..], s, k);
    if r.Some? then r else if k == i then None else Shorten(items, s, i, k - 1)
  }

  lemma {:induction false} GreedySound(items: seq<Item>, s: string, i: nat)
    requires i <= |s| && Greedy(items, s, i).Some?
    ensures Matches(items, s, i, Greedy(items, s, i).value)
    decreases |items|, 0
  {
    if items != [] {
      if items[0].starred {
        ShortenSound(items, s, i, RunEnd(items[0].atom, s, i));
      } else {
        GreedySound(items[1..], s, i + 1);
      }
    }
  }

  lemma {:induction false} ShortenSound(items: seq<Item>, s: string, i: nat, k: nat)
    requires items != [] && items[0].starred && i <= k <= |s| && AllAccepted(items[0].atom, s, i, k)
    requires Shorten(items, s, i, k).Some?
    ensures Matches(items, s, i, Shorten(items, s, i, k).value)
    decreases |items|, 0, k - i
  {
    if Greedy(items[1..], s, k).Some? {
      GreedySound(items[1..], s, k);
    } else {
      ShortenSound(items, s, i, k - 1);
    }
  }

  ghost predicate OnlyDotsStarred(items: seq<Item>) {
    forall i :: 0 <= i < |items| && items[i].starred ==> items[i].atom == Dot
  }

  /** If the same items match from k to m and, starting later, from k' to e', then from k' they
      also match up to some end that is not before m. */
  lemma {:induction false} LaterStartReachesAsFar(items: seq<Item>, s: string, k: nat, m: nat, k': nat, e': nat)
      returns (e: nat)
    requires OnlyDotsStarred(items)
    requires k <= m <= |s| && k <= k' <= e' <= |s|
    requires Matches(items, s, k, m) && Matches(items, s, k', e')
    ensures k' <= e <= |s| && m <= e && Matches(items, s, k', e)
    decreases |items|
  {
    if items == [] {
      return e';
    }
    var rest := items[1..];
    assert OnlyDotsStarred(rest);
    if items[0].starred {
      var q: nat :| k <= q <= m && AllAccepted(Dot, s, k, q) && Matches(rest, s, q, m);
      var q': nat :| k' <= q' <= e' && AllAccepted(Dot, s, k', q') && Matches(rest, s, q', e');
      if q >= k' {
        assert AllAccepted(Dot, s, k', q);
        e := m;
      } else {
        e := LaterStartReachesAsFar(rest, s, q, m, q', e');
      }
    } else {
      e := LaterStartReachesAsFar(rest, s, k + 1, m, k' + 1, e');
    }
  }

  /** The greedy match is a longest one. */
  lemma {:induction false} GreedyIsLongest(items: seq<Item>, s: string, i: nat, m: nat)
    requires OnlyDotsStarred(items)
    requires i <= m <= |s| && Matches(items, s, i, m)
    ensures Greedy(items, s, i).Some? && Greedy(items, s, i).value >= m
    decreases |items|, 0
  {
    if items != [] {
      var rest := items[1..];
      assert OnlyDotsStarred(rest);
      if items[0].starred {
        var k: nat :| i <= k <= m && AllAccepted(Dot, s, i, k) && Matches(rest, s, k, m);
        ShortenIsLongest(items, s, i, k, m, RunEnd(Dot, s, i));
      } else {
        GreedyIsLongest(rest, s, i + 1, m);
      }
    }
  }

  lemma {:induction false} ShortenIsLongest(items: seq<Item>, s: string, i: nat, k: nat, m: nat, p: nat)
    requires items != [] && items[0].starred && OnlyDotsStarred(items)
    requires i <= k <= p <= |s| && k <= m <= |s| && Matches(items[1..], s, k, m)
    ensures Shorten(items, s, i, p).Some? && Shorten(items, s, i, p).value >= m
    decreases |items|, 0, p - i
  {
    var rest := items[1..];
    assert OnlyDotsStarred(rest);
    var r := Greedy(rest, s, p);
    if r.Some? {
      GreedySound(rest, s, p);
      var e := LaterStartReachesAsFar(rest, s, k, m, p, r.value);
      GreedyIsLongest(rest, s, p, e);
    } else {
      if p == k {
        GreedyIsLongest(rest, s, k, m);
      }
      ShortenIsLongest(items, s, i, k, m, p - 1);
    }
  }

  /** So comparing its length with that of the name decides whether the whole name matches. */
  lemma LengthTestDecides(items: seq<Item>, name: string)
    requires OnlyDotsStarred(items)
    ensures Greedy(items, name, 0) == Some(|name|) <==> Matches(items, name, 0, |name|)
  {
    if Greedy(items, name, 0) == Some(|name|) {
      GreedySound(items, name, 0);
    }
    if Matches(items, name, 0, |name|) {
      GreedyIsLongest(items, name, 0, |name|);
    }
  }

  // ---------- The translation ----------

  predicate AllCarets(s: string) {
    forall i :: 0 <= i < |s| ==> s[i] == '^'
  }

  /** Carets at the front are moved to the end, one by one. */
  function Rotate(body: string): (r: string)
    ensures |r| == |body| && (!AllCarets(body) ==> r[0] != '^')
    decreases Carets(body)
  {
    if body == "" || body[0] != '^' || AllCarets(body) then body
    else
      CaretsRotate(body);
      var r := Rotate(body[1..] + [body[0]]);
      assert !AllCarets(body[1..] + [body[0]]) by {
        var i :| 0 <= i < |body| && body[i] != '^';
        assert (body[1..] + [body[0]])[i - 1] == body[i];
      }
      r
  }

  /** The number of carets before the first other character. */
  function Carets(s: string): (n: nat)
    ensures n <= |s|
  {
    if s == "" || s[0] != '^' then 0 else 1 + Carets(s[1..])
  }

  lemma {:induction false} CaretsAppend(s: string, c: char)
    requires !AllCarets(s)
    ensures Carets(s + [c]) == Carets(s)
  {
    if s[0] == '^' {
      var i :| 0 <= i < |s| && s[i] != '^';
      assert s[1..][i - 1] == s[i];
      assert (s + [c])[1..] == s[1..] + [c];
      CaretsAppend(s[1..], c);
    }
  }

  lemma CaretsRotate(body: string)
    requires body != "" && body[0] == '^' && !AllCarets(body)
    ensures Carets(body[1..] + [body[0]]) < Carets(body)
  {
    var i :| 0 <= i < |body| && body[i] != '^';
    assert body[1..][i - 1] == body[i];
    CaretsAppend(body[1..], body[0]);
  }

  /** The regular expression for one token. */
  function Emit(t: Token): string {
    match t
    case Star => ".*"
    case Any => "."
    case Literal(c) => if Special(c) || c == '[' then "\\" + [c] else [c]
    case Set(negated, body) =>
      if negated then "[^" + body + "]"
      else if AllCarets(body) then "\\^"
      else "[" + Rotate(body) + "]"
  }

  function EmitAll(ts: seq<Token>): string {
    if ts == [] then "" else Emit(ts[0]) + EmitAll(ts[1..])
  }

  /** What that text parses to. */
  function ItemOf(t: Token): Item {
    match t
    case Star => Item(Dot, true)
    case Any => Item(Dot, false)
    case Literal(c) => Item(Char(c), false)
    case Set(negated, body) =>
      if negated then Item(Class(true, body), false)
      else if AllCarets(body) then Item(Char('^'), false)
      else Item(Class(false, Rotate(body)), false)
  }

  function ItemsOf(ts: seq<Token>): seq<Item> {
    if ts == [] then [] else [ItemOf(ts[0])] + ItemsOf(ts[1..])
  }

  lemma {:induction false} FindCloseAt(s: string, i: nat, j: nat)
    requires i <= j < |s| && s[j] == ']' && forall k :: i <= k < j ==> s[k] != ']'
    ensures FindClose(s, i) == j
    decreases j - i
  {
    if i < j {
      FindCloseAt(s, i + 1, j);
    }
  }

  lemma {:induction false} RotateKeepsOut(body: string, c: char)
    requires c != '^' && c !in body
    ensures c !in Rotate(body)
    decreases Carets(body)
  {
    if body != "" && body[0] == '^' && !AllCarets(body) {
      CaretsRotate(body);
      RotateKeepsOut(body[1..] + [body[0]], c);
    }
  }

  /** A class in the regular expression ends where its body does. */
  lemma ParseClass(negated: bool, body: string, rest: string)
    requires body != "" && ']' !in body[1..] && (negated || body[0] != '^')
    ensures var r := (if negated then "[^" else "[") + body + "]" + rest;
      r != "" && ParseAtom(r) == Some((Class(negated, body), rest))
  {
    var head := if negated then "[^" else "[";
    var r := head + body + "]" + rest;
    var start := |head|;
    var e := start + |body|;
    assert r[e] == ']' && r[start..e] == body && r[e + 1..] == rest;
    forall k | start + 1 <= k < e ensures r[k] != ']' {
      assert r[k] == body[1..][k - start - 1];
    }
    FindCloseAt(r, start + 1, e);
    assert r[1] == if negated then '^' else body[0];
  }

  lemma ParseEscape(c: char, rest: string)
    requires Special(c) || c == '['
    ensures ParseAtom("\\" + [c] + rest) == Some((Char(c), rest))
  {
    assert ("\\" + [c] + rest)[2..] == rest;
  }

  lemma ParsePlain(c: char, rest: string)
    requires !Special(c) && c != '[' && c != '*' && c != '?'
    ensures ParseAtom([c] + rest) == Some((Char(c), rest))
  {
    assert ([c] + rest)[1..] == rest;
  }

  predicate StartsWithStar(s: string) {
    s != "" && s[0] == '*'
  }

  lemma RotatedBody(body: string)
    requires body != "" && ']' !in body[1..] && !AllCarets(body)
    ensures Rotate(body) != "" && ']' !in Rotate(body)[1..] && Rotate(body)[0] != '^'
  {
    if body[0] == '^' {
      assert body == [body[0]] + body[1..];
      RotateKeepsOut(body, ']');
    }
  }

  lemma ParseEmit(t: Token, rest: string)
    requires TokenOk(t) && !StartsWithStar(rest)
    ensures Emit(t) + rest != "" && !StartsWithStar(Emit(t) + rest)
    ensures ParseItem(Emit(t) + rest) == Some((ItemOf(t), rest))
  {
    match t
    case Star =>
      assert (".*" + rest)[1..] == "*" + rest && ("*" + rest)[1..] == rest;
    case Any =>
      assert ("." + rest)[1..] == rest;
    case Literal(c) =>
      if Special(c) || c == '[' { ParseEscape(c, rest); } else { ParsePlain(c, rest); }
    case Set(negated, body) =>
      if negated {
        ParseClass(true, body, rest);
      } else if AllCarets(body) {
        ParseEscape('^', rest);
        assert "\\" + ['^'] == "\\^";
      } else {
        RotatedBody(body);
        ParseClass(false, Rotate(body), rest);
      }
  }

  /** Every translation is a regular expression of the subset, and it parses to one item for each
      token of the pattern. */
  lemma {:induction false} ParseEmitAll(ts: seq<Token>)
    requires forall t :: t in ts ==> TokenOk(t)
    ensures !StartsWithStar(EmitAll(ts)) && ParseRegex(EmitAll(ts)) == Some(ItemsOf(ts))
  {
    if ts != [] {
      ParseEmitAll(ts[1..]);
      ParseEmit(ts[0], EmitAll(ts[1..]));
    }
  }

  // ---------- Same language ----------

  lemma {:induction false} InSetCarets(body: string, x: char)
    requires body != "" && AllCarets(body)
    ensures InSet(body, x) <==> x == '^'
    decreases |body|
  {
    if |body| > 1 {
      assert body[1] == '^';
      InSetCarets(body[1..], x);
    } else {
      assert body[0] == '^' && body[1..] == "";
    }
  }

  ghost predicate SameSet(a: string, b: string) {
    forall x: char :: InSet(a, x) == InSet(b, x)
  }

  lemma SameSetAt(a: string, b: string, x: char)
    requires SameSet(a, b)
    ensures InSet(a, x) == InSet(b, x)
  {
  }

  /** The text after leading carets makes a range with the last of them. */
  predicate Opens(rest: string) {
    |rest| >= 2 && rest[0] == '-'
  }

  /** The text ends in a character and a '-', read as two members, that would be a range if
      anything followed. */
  predicate Dangles(rest: string)
    decreases |rest|
  {
    if |rest| < 2 then false
    else if |rest| == 2 then rest[1] == '-'
    else if rest[1] == '-' then Dangles(rest[3..])
    else Dangles(rest[1..])
  }

  /** Moving the leading carets to the end takes one out of a range or puts one into a range. */
  predicate Displaced(body: string) {
    body != "" && body[0] == '^' && !AllCarets(body) &&
    var rest := body[Carets(body)..];
    (Opens(rest) || Dangles(rest))
  }

  lemma {:induction false} LeadingCarets(body: string)
    ensures Carets(body) <= |body| && AllCarets(body[..Carets(body)])
    ensures AllCarets(body) <==> Carets(body) == |body|
    ensures Carets(body) < |body| ==> body[Carets(body)] != '^'
  {
    if body != "" && body[0] == '^' {
      LeadingCarets(body[1..]);
      assert body == [body[0]] + body[1..];
    }
  }

  lemma {:induction false} RotateIs(body: string)
    requires !AllCarets(body)
    ensures Carets(body) <= |body| && Rotate(body) == body[Carets(body)..] + body[..Carets(body)]
    decreases Carets(body)
  {
    LeadingCarets(body);
    if body[0] == '^' {
      var k, next := Carets(body), body[1..] + [body[0]];
      assert !AllCarets(body[1..]) by {
        assert body == [body[0]] + body[1..];
      }
      CaretsAppend(body[1..], '^');
      assert !AllCarets(next) by {
        assert next[k - 1] == body[k];
      }
      RotateIs(next);
      assert next[k - 1..] == body[k..] + ['^'];
      assert ['^'] + next[..k - 1] == body[..k];
    } else {
      assert Carets(body) == 0 && body[0..] + body[..0] == body;
    }
  }

  /** A set before the carets are moved. */
  lemma {:induction false} CaretsFirst(c: string, rest: string, x: char)
    requires c != "" && AllCarets(c) && rest != "" && rest[0] != '^'
    ensures InSet(c + rest, x) <==>
      if Opens(rest) then (|c| >= 2 && x == '^') || '^' <= x <= rest[1] || InSet(rest[2..], x)
      else x == '^' || InSet(rest, x)
  {
    var s := c + rest;
    if |c| == 1 {
      assert s[1..] == rest && (|s| >= 3 ==> s[3..] == rest[2..]);
    } else {
      assert s[1..] == c[1..] + rest;
      CaretsFirst(c[1..], rest, x);
    }
  }

  /** And after. */
  lemma {:induction false} CaretsLast(rest: string, c: string, x: char)
    requires AllCarets(c) && c != ""
    ensures Dangles(rest) ==> |rest| >= 2
    ensures InSet(rest + c, x) <==>
      if Dangles(rest) then
        InSet(rest[..|rest| - 2], x) || rest[|rest| - 2] <= x <= '^' || (|c| >= 2 && x == '^')
      else x == '^' || InSet(rest, x)
    decreases |rest|
  {
    var s := rest + c;
    if rest == "" {
      assert s == c;
      InSetCarets(c, x);
    } else if |rest| == 2 && rest[1] == '-' {
      assert s[3..] == c[1..] && rest[..0] == "";
      if |c| >= 2 {
        InSetCarets(c[1..], x);
      }
    } else {
      var n := if |rest| >= 3 && rest[1] == '-' then 3 else 1;
      assert s[n..] == rest[n..] + c;
      CaretsLast(rest[n..], c, x);
      assert Dangles(rest) ==> rest[..|rest| - 2][n..] == rest[n..][..|rest| - n - 2];
    }
  }

  /** What the rotation does to a set, character by character. */
  lemma RotationAt(body: string, x: char)
    requires body != "" && body[0] == '^' && !AllCarets(body)
    ensures var k := Carets(body);
      0 < k < |body| &&
      var rest := body[k..];
      && (InSet(body, x) <==>
          if Opens(rest) then (k >= 2 && x == '^') || '^' <= x <= rest[1] || InSet(rest[2..], x)
          else x == '^' || InSet(rest, x))
      && (Dangles(rest) ==> |rest| >= 2)
      && (InSet(Rotate(body), x) <==>
          if Dangles(rest) then
            InSet(rest[..|rest| - 2], x) || rest[|rest| - 2] <= x <= '^' || (k >= 2 && x == '^')
          else x == '^' || InSet(rest, x))
  {
    var k := Carets(body);
    LeadingCarets(body);
    RotateIs(body);
    assert body == body[..k] + body[k..];
    CaretsFirst(body[..k], body[k..], x);
    CaretsLast(body[k..], body[..k], x);
  }

  /** Unless a caret is displaced, the rotated text denotes the same set. */
  lemma UndisplacedIsSame(body: string, x: char)
    requires !Displaced(body)
    ensures InSet(body, x) <==> InSet(Rotate(body), x)
  {
    if body != "" && body[0] == '^' && !AllCarets(body) {
      RotationAt(body, x);
    }
  }
  /** A dangling '-' is a member, and so is the character before it. */
  lemma {:induction false} DanglingMembers(rest: string, x: char)
    requires Dangles(rest)
    ensures |rest| >= 2
    ensures InSet(rest, x) <==> InSet(rest[..|rest| - 2], x) || x == rest[|rest| - 2] || x == '-'
    decreases |rest|
  {
    if |rest| == 2 {
      assert rest[..0] == "" && rest[1..] == [rest[1]] && rest[1..][1..] == "";
      assert InSet(rest[1..], x) <==> x == '-';
    } else {
      var n := if rest[1] == '-' then 3 else 1;
      DanglingMembers(rest[n..], x);
      assert rest[..|rest| - 2][n..] == rest[n..][..|rest| - n - 2];
    }
  }

  /** x is in the range that ends in a moved caret, or one of the three members that it replaces,
      but not both. */
  predicate ClosingDiffers(y: char, more: bool, x: char) {
    (x == '^' || x == y || x == '-') != (y <= x <= '^' || (more && x == '^'))
  }

  ghost predicate ClosingCovered(front: string, y: char, more: bool) {
    forall x: char :: ClosingDiffers(y, more, x) ==> InSet(front, x)
  }

  /** A caret put into a range at the end matters exactly where the range and the three members it
      replaces differ, and only if the rest of the set does not cover the difference. */
  lemma ClosingIsExact(body: string)
    requires Displaced(body) && var rest := body[Carets(body)..]; Dangles(rest) && !Opens(rest)
    ensures var k, rest := Carets(body), body[Carets(body)..];
      |rest| >= 2 &&
      (SameSet(body, Rotate(body)) <==> ClosingCovered(rest[..|rest| - 2], rest[|rest| - 2], k >= 2))
  {
    var k, rest := Carets(body), body[Carets(body)..];
    DanglingMembers(rest, 'a');
    var front, y := rest[..|rest| - 2], rest[|rest| - 2];
    forall x: char
      ensures InSet(body, x) == InSet(Rotate(body), x) <==> (ClosingDiffers(y, k >= 2, x) ==> InSet(front, x))
    {
      RotationAt(body, x);
      DanglingMembers(rest, x);
    }
    hide InSet;
    if SameSet(body, Rotate(body)) {
      forall x: char | ClosingDiffers(y, k >= 2, x) ensures InSet(front, x) {
        SameSetAt(body, Rotate(body), x);
      }
    }
  }

  /** The same for the range that begins with the last leading caret. */
  predicate OpeningDiffers(c: char, more: bool, x: char) {
    (x == '^' || x == '-' || x == c) != ('^' <= x <= c || (more && x == '^'))
  }

  ghost predicate OpeningCovered(tail: string, c: char, more: bool) {
    forall x: char :: OpeningDiffers(c, more, x) ==> InSet(tail, x)
  }

  /** A caret taken out of a range matters in the same way, where what follows the range is read as
      before. */
  lemma OpeningIsExact(body: string)
    requires Displaced(body) && var rest := body[Carets(body)..]; Opens(rest) && !Dangles(rest)
    requires var rest := body[Carets(body)..]; rest[1] != '-' && (|rest| >= 4 ==> rest[2] != '-')
    ensures var k, rest := Carets(body), body[Carets(body)..];
      SameSet(body, Rotate(body)) <==> OpeningCovered(rest[2..], rest[1], k >= 2)
  {
    var k, rest := Carets(body), body[Carets(body)..];
    assert rest[1..][1..] == rest[2..];
    forall x: char
      ensures InSet(body, x) == InSet(Rotate(body), x)
        <==> (OpeningDiffers(rest[1], k >= 2, x) ==> InSet(rest[2..], x))
    {
      RotationAt(body, x);
      assert InSet(rest, x) <==> x == '-' || InSet(rest[1..], x);
      assert InSet(rest[1..], x) <==> x == rest[1] || InSet(rest[2..], x);
    }
    hide InSet;
    if SameSet(body, Rotate(body)) {
      forall x: char | OpeningDiffers(rest[1], k >= 2, x) ensures InSet(rest[2..], x) {
        SameSetAt(body, Rotate(body), x);
      }
    }
  }

  /** The character after c. */
  function Next(c: char): char {
    if c == '\U{10FFFF}' then c
    else if c == '\U{D7FF}' then '\U{E000}'
    else (c as int + 1) as char
  }

  lemma NextIs(c: char, x: char)
    ensures c < x ==> c < Next(c) <= x
  {
  }

  /** The moved carets change nothing, as far as the characters of the set and those right after
      them can tell. */
  predicate Kept(body: string) {
    forall c :: c in body ==>
      InSet(body, c) == InSet(Rotate(body), c) && InSet(body, Next(c)) == InSet(Rotate(body), Next(c))
  }

  /** The last character up to x where a range of the set can begin or has just ended. */
  function Floor(body: string, x: char): (r: Option<char>)
    ensures r == None ==> forall c :: c in body ==> x < c
    ensures r.Some? ==> r.value <= x && exists c :: c in body && (r.value == c || r.value == Next(c))
    ensures r.Some? ==> forall c :: c in body ==> (c <= x ==> c <= r.value) && (c < x ==> c < r.value)
  {
    if body == "" then None
    else
      var c, r := body[0], Floor(body[1..], x);
      assert body == [c] + body[1..];
      NextIs(c, x);
      var low := if c <= x && (r == None || r.value < c) then Some(c) else r;
      if Next(c) <= x && (low == None || low.value < Next(c)) then Some(Next(c)) else low
  }

  lemma {:induction false} SameRegion(body: string, p: char, x: char)
    requires p <= x && forall c :: c in body ==> (c <= x ==> c <= p) && (c < x ==> c < p)
    ensures InSet(body, p) <==> InSet(body, x)
    decreases |body|
  {
    if body != "" {
      var n := if |body| >= 3 && body[1] == '-' then 3 else 1;
      assert forall c :: c in body[n..] ==> c in body;
      SameRegion(body[n..], p, x);
      assert body[0] in body && (n == 3 ==> body[2] in body);
    }
  }

  lemma {:induction false} BelowAll(body: string, x: char)
    requires forall c :: c in body ==> x < c
    ensures !InSet(body, x)
    decreases |body|
  {
    if body != "" {
      var n := if |body| >= 3 && body[1] == '-' then 3 else 1;
      assert forall c :: c in body[n..] ==> c in body;
      BelowAll(body[n..], x);
      assert body[0] in body;
    }
  }

  lemma SameCharactersRotated(body: string, c: char)
    ensures c in Rotate(body) <==> c in body
  {
    if !AllCarets(body) {
      RotateIs(body);
      assert body == body[..Carets(body)] + body[Carets(body)..];
    }
  }

  /** So the finite test decides whether the translation of a set is the set. */
  lemma KeptIsExact(body: string)
    ensures Kept(body) <==> SameSet(body, Rotate(body))
    ensures !Displaced(body) ==> Kept(body)
  {
    if Kept(body) {
      forall x ensures InSet(body, x) <==> InSet(Rotate(body), x) {
        forall c ensures c in Rotate(body) <==> c in body {
          SameCharactersRotated(body, c);
        }
        var p := Floor(body, x);
        if p == None {
          BelowAll(body, x);
          BelowAll(Rotate(body), x);
        } else {
          SameRegion(body, p.value, x);
          SameRegion(Rotate(body), p.value, x);
        }
      }
    }
    if SameSet(body, Rotate(body)) {
      forall c | c in body
        ensures InSet(body, c) == InSet(Rotate(body), c) && InSet(body, Next(c)) == InSet(Rotate(body), Next(c))
      {
        SameSetAt(body, Rotate(body), c);
        SameSetAt(body, Rotate(body), Next(c));
      }
    }
    if !Displaced(body) {
      forall x ensures InSet(body, x) <==> InSet(Rotate(body), x) {
        UndisplacedIsSame(body, x);
      }
    }
  }

  predicate Faithful(t: Token) {
    t.Set? && !t.negated ==> Kept(t.body)
  }

  lemma SameCharacters(t: Token, x: char)
    requires TokenOk(t) && Faithful(t) && !t.Star?
    ensures AtomAccepts(ItemOf(t).atom, x) <==> TokenAccepts(t, x) && (t.Any? ==> x != '\n')
  {
    if t.Set? && !t.negated {
      KeptIsExact(t.body);
      SameSetAt(t.body, Rotate(t.body), x);
      if AllCarets(t.body) {
        InSetCarets(t.body, x);
      }
    }
  }

  ghost predicate FaithfulTokens(ts: seq<Token>) {
    forall t :: t in ts ==> TokenOk(t) && Faithful(t)
  }

  lemma {:induction false} StarsAreDots(ts: seq<Token>)
    ensures OnlyDotsStarred(ItemsOf(ts))
  {
    if ts != [] {
      StarsAreDots(ts[1..]);
    }
  }

  /** The items denote the language of the pattern, within lines. */
  lemma {:induction false} SameLanguage(ts: seq<Token>, s: string, i: nat, j: nat)
    requires FaithfulTokens(ts) && i <= j <= |s|
    ensures Matches(ItemsOf(ts), s, i, j) <==> LineGlob(ts, s, i, j)
    decreases |ts|
  {
    if ts != [] {
      var t, rest := ts[0], ts[1..];
      assert FaithfulTokens(rest);
      assert ItemsOf(ts)[1..] == ItemsOf(rest) && ItemsOf(ts)[0] == ItemOf(t);
      if t.Star? {
        forall k: nat | i <= k <= j
          ensures AllAccepted(Dot, s, i, k) <==> NoNewline(s, i, k)
          ensures Matches(ItemsOf(rest), s, k, j) <==> LineGlob(rest, s, k, j)
        {
          SameLanguage(rest, s, k, j);
        }
      } else if i < j {
        hide Faithful;
        SameCharacters(t, s[i]);
        SameLanguage(rest, s, i + 1, j);
      }
    }
  }

  /** No name is accepted wrongly, and names of one line are all decided. */
  lemma {:induction false} LineGlobIsGlob(ts: seq<Token>, s: string, i: nat, j: nat)
    requires i <= j <= |s|
    ensures LineGlob(ts, s, i, j) ==> Glob(ts, s, i, j)
    ensures NoNewline(s, i, j) ==> (LineGlob(ts, s, i, j) <==> Glob(ts, s, i, j))
    decreases |ts|
  {
    if ts != [] {
      var rest := ts[1..];
      if ts[0].Star? {
        forall k: nat | i <= k <= j
          ensures LineGlob(rest, s, k, j) ==> Glob(rest, s, k, j)
          ensures NoNewline(s, i, j) ==> NoNewline(s, i, k) && (LineGlob(rest, s, k, j) <==> Glob(rest, s, k, j))
        {
          LineGlobIsGlob(rest, s, k, j);
        }
      } else if i < j {
        LineGlobIsGlob(rest, s, i + 1, j);
      }
    }
  }

  /** What the regular expression engine answers: the length of the match, or -1. */
  function RegexMatch(regex: string, name: string): int {
    match ParseRegex(regex)
    case None => -1
    case Some(items) => match Greedy(items, name, 0) case None => -1 case Some(n) => n
  }

  /** The test in `fnmatchcase` is sound and complete for every name: if the sets of the pattern are
      kept, the match is as long as the name exactly when the pattern matches it within lines. */
  lemma TestIsExact(pat: string, name: string)
    requires forall t :: t in Tokenize(pat) ==> Faithful(t)
    ensures RegexMatch(EmitAll(Tokenize(pat)), name) == |name| <==> LineGlob(Tokenize(pat), name, 0, |name|)
    ensures RegexMatch(EmitAll(Tokenize(pat)), name) == |name| ==> Glob(Tokenize(pat), name, 0, |name|)
    ensures NoNewline(name, 0, |name|) ==>
      (RegexMatch(EmitAll(Tokenize(pat)), name) == |name| <==> Glob(Tokenize(pat), name, 0, |name|))
  {
    var ts := Tokenize(pat);
    TokensOk(pat);
    ParseEmitAll(ts);
    StarsAreDots(ts);
    SameLanguage(ts, name, 0, |name|);
    LengthTestDecides(ItemsOf(ts), name);
    LineGlobIsGlob(ts, name, 0, |name|);
  }

  lemma OneToken(t: Token, x: char)
    requires TokenOk(t) && t.Set?
    ensures RegexMatch(EmitAll([t]), [x]) == 1 <==> AtomAccepts(ItemOf(t).atom, x)
    ensures Glob([t], [x], 0, 1) <==> TokenAccepts(t, x)
  {
    assert [t][1..] == [];
    assert ItemsOf([t]) == [ItemOf(t)] && [ItemOf(t)][1..] == [];
    ParseEmitAll([t]);
    assert Glob([], [x], 1, 1) && Greedy([], [x], 1) == Some(1);
  }

  ghost predicate TestAgrees(t: Token, x: char) {
    RegexMatch(EmitAll([t]), [x]) == 1 <==> Glob([t], [x], 0, 1)
  }

  /** A set that is not kept is lost: with it for a pattern, the test is right about every name of one
      character if and only if the set is kept. */
  lemma UnkeptSetIsLost(t: Token)
    requires TokenOk(t) && t.Set?
    ensures Faithful(t) <==> forall x: char :: TestAgrees(t, x)
  {
    forall x: char ensures TestAgrees(t, x) <==> AtomAccepts(ItemOf(t).atom, x) == TokenAccepts(t, x) {
      OneToken(t, x);
    }
    hide TestAgrees;
    if Faithful(t) {
      forall x: char ensures TestAgrees(t, x) {
        SameCharacters(t, x);
      }
    } else {
      KeptIsExact(t.body);
      var x: char :| InSet(t.body, x) != InSet(Rotate(t.body), x);
      assert !TestAgrees(t, x);
    }
  }

  predicate Wild(t: Token) {
    t.Star? || t.Any?
  }

  lemma {:induction false} TameGlobIsLineGlob(ts: seq<Token>, s: string, i: nat, j: nat)
    requires i <= j <= |s| && forall t :: t in ts ==> !Wild(t)
    ensures LineGlob(ts, s, i, j) <==> Glob(ts, s, i, j)
    decreases |ts|
  {
    if ts != [] {
      assert ts[0] in ts && !Wild(ts[0]);
      if i < j {
        TameGlobIsLineGlob(ts[1..], s, i + 1, j);
      }
    }
  }

  /** Matching depends on the text only. */
  lemma {:induction false} GlobMoves(ts: seq<Token>, s: string, i: nat, j: nat, s': string, i': nat, j': nat)
    requires i <= j <= |s| && i' <= j' <= |s'| && s[i..j] == s'[i'..j'] && Glob(ts, s, i, j)
    ensures Glob(ts, s', i', j')
    decreases |ts|
  {
    var d := i' - i;
    assert j' - i' == |s'[i'..j']| == j - i;
    if ts != [] {
      if ts[0].Star? {
        var k: nat :| i <= k <= j && Glob(ts[1..], s, k, j);
        assert s[i..j][k - i..] == s[k..j] && s'[i'..j'][k - i..] == s'[k + d..j'];
        GlobMoves(ts[1..], s, k, j, s', k + d, j');
      } else {
        assert s[i] == s[i..j][0] && s'[i'] == s'[i'..j'][0];
        assert s[i..j][1..] == s[i + 1..j] && s'[i'..j'][1..] == s'[i' + 1..j'];
        GlobMoves(ts[1..], s, i + 1, j, s', i' + 1, j');
      }
    }
  }

  function Newlines(s: string): nat {
    if s == "" then 0 else (if s[0] == '\n' then 1 else 0) + Newlines(s[1..])
  }

  lemma {:induction false} NewlinesConcat(a: string, b: string)
    ensures Newlines(a + b) == Newlines(a) + Newlines(b)
  {
    if a == "" {
      assert a + b == b;
    } else {
      assert (a + b)[1..] == a[1..] + b;
      NewlinesConcat(a[1..], b);
    }
  }

  lemma {:induction false} NewlinesNone(s: string, i: nat, k: nat)
    requires i <= k <= |s| && NoNewline(s, i, k)
    ensures Newlines(s[i..k]) == 0
    decreases k - i
  {
    if i < k {
      assert s[i..k][1..] == s[i + 1..k];
      NewlinesNone(s, i + 1, k);
    }
  }

  lemma {:induction false} NewlinesBlock(n: nat)
    ensures Newlines(seq(n, _ => '\n')) == n
  {
    if n > 0 {
      assert seq(n, _ => '\n')[1..] == seq(n - 1, _ => '\n');
      NewlinesBlock(n - 1);
    }
  }

  /** Within lines, a pattern takes in no more newlines than it has tokens. */
  lemma {:induction false} LineGlobNewlines(ts: seq<Token>, s: string, i: nat, j: nat)
    requires i <= j <= |s| && LineGlob(ts, s, i, j)
    ensures Newlines(s[i..j]) <= |ts|
    decreases |ts|
  {
    if ts != [] {
      if ts[0].Star? {
        var k: nat :| i <= k <= j && NoNewline(s, i, k) && LineGlob(ts[1..], s, k, j);
        assert s[i..j] == s[i..k] + s[k..j];
        NewlinesConcat(s[i..k], s[k..j]);
        NewlinesNone(s, i, k);
        LineGlobNewlines(ts[1..], s, k, j);
      } else {
        assert s[i..j][1..] == s[i + 1..j];
        LineGlobNewlines(ts[1..], s, i + 1, j);
      }
    }
  }

  /** A star can take in any number of them. */
  lemma {:induction false} GlobNewlines(ts: seq<Token>, s: string, i: nat, j: nat, n: nat) returns (r: string)
    requires i <= j <= |s| && Glob(ts, s, i, j) && exists t :: t in ts && t.Star?
    ensures Glob(ts, r, 0, |r|) && Newlines(r) >= n
    decreases |ts|
  {
    var rest := ts[1..];
    if ts[0].Star? {
      var k: nat :| i <= k <= j && Glob(rest, s, k, j);
      var block := seq(n, _ => '\n');
      r := block + s[k..j];
      GlobMoves(rest, s, k, j, r, n, |r|);
      NewlinesConcat(block, s[k..j]);
      NewlinesBlock(n);
    } else {
      assert ts == [ts[0]] + rest;
      var q := GlobNewlines(rest, s, i + 1, j, n);
      r := [s[i]] + q;
      assert r[1..|r|] == q && r[1..] == q;
      GlobMoves(rest, q, 0, |q|, r, 1, |r|);
    }
  }

  /** Without stars, token p stands for the character at i + p. */
  lemma {:induction false} NewlineAtAny(ts: seq<Token>, s: string, i: nat, j: nat, p: nat)
    requires i <= j <= |s| && Glob(ts, s, i, j) && p < |ts| && ts[p].Any?
    requires forall t :: t in ts ==> !t.Star?
    ensures i + p < j
    ensures var r := s[i + p := '\n']; Glob(ts, r, i, j) && !LineGlob(ts, r, i, j)
    decreases |ts|
  {
    if p == 0 {
      var r := s[i := '\n'];
      assert s[i + 1..j] == r[i + 1..j];
      GlobMoves(ts[1..], s, i + 1, j, r, i + 1, j);
    } else {
      NewlineAtAny(ts[1..], s, i + 1, j, p - 1);
    }
  }

  /** With newlines in names, a pattern that matches anything at all is matched within lines only, and
      so mistaken by the test, for some name that it matches, if and only if it has a '*' or a '?'. */
  lemma NewlinesMatter(ts: seq<Token>, name: string)
    requires Glob(ts, name, 0, |name|)
    ensures (exists t :: t in ts && Wild(t)) <==> exists s :: Glob(ts, s, 0, |s|) && !LineGlob(ts, s, 0, |s|)
  {
    if t :| t in ts && t.Star? {
      var r := GlobNewlines(ts, name, 0, |name|, |ts| + 1);
      assert r[0..|r|] == r;
      if LineGlob(ts, r, 0, |r|) {
        LineGlobNewlines(ts, r, 0, |r|);
      }
      assert Glob(ts, r, 0, |r|) && !LineGlob(ts, r, 0, |r|);
    } else if t :| t in ts && t.Any? {
      var p :| 0 <= p < |ts| && ts[p].Any?;
      NewlineAtAny(ts, name, 0, |name|, p);
      var r := name[0 + p := '\n'];
      assert Glob(ts, r, 0, |r|) && !LineGlob(ts, r, 0, |r|);
    } else {
      forall s ensures LineGlob(ts, s, 0, |s|) <==> Glob(ts, s, 0, |s|) {
        TameGlobIsLineGlob(ts, s, 0, |s|);
      }
    }
  }

  // ---------- The patterns that the test is right about ----------

  /** Whether a token takes a character: in the pattern, within lines, or in its translation. */
  predicate Takes(t: Token, x: char, translated: bool) {
    if translated then AtomAccepts(ItemOf(t).atom, x) else TokenAccepts(t, x) && (t.Any? ==> x != '\n')
  }

  function Solids(ts: seq<Token>): nat {
    if ts == [] then 0 else (if ts[0].Star? then 0 else 1) + Solids(ts[1..])
  }

  /** A name that is as short as the pattern allows: the stars take nothing. */
  predicate Fits(ts: seq<Token>, s: string, translated: bool) {
    if ts == [] then s == ""
    else if ts[0].Star? then Fits(ts[1..], s, translated)
    else s != "" && Takes(ts[0], s[0], translated) && Fits(ts[1..], s[1..], translated)
  }

  lemma {:induction false} FitsLength(ts: seq<Token>, s: string, translated: bool)
    requires Fits(ts, s, translated)
    ensures |s| == Solids(ts)
  {
    if ts != [] {
      FitsLength(ts[1..], if ts[0].Star? then s else s[1..], translated);
    }
  }

  lemma {:induction false} ShortLineGlob(ts: seq<Token>, s: string, i: nat, j: nat)
    requires i <= j <= |s|
    ensures LineGlob(ts, s, i, j) ==> j - i >= Solids(ts)
    ensures j - i == Solids(ts) ==> (LineGlob(ts, s, i, j) <==> Fits(ts, s[i..j], false))
    decreases |ts|
  {
    if ts != [] {
      if ts[0].Star? {
        ShortLineGlob(ts[1..], s, i, j);
        if LineGlob(ts, s, i, j) {
          var k: nat :| i <= k <= j && NoNewline(s, i, k) && LineGlob(ts[1..], s, k, j);
          ShortLineGlob(ts[1..], s, k, j);
        }
      } else if i < j {
        assert s[i..j][1..] == s[i + 1..j];
        ShortLineGlob(ts[1..], s, i + 1, j);
      }
    }
  }

  lemma {:induction false} ShortMatch(ts: seq<Token>, s: string, i: nat, j: nat)
    requires i <= j <= |s|
    ensures Matches(ItemsOf(ts), s, i, j) ==> j - i >= Solids(ts)
    ensures j - i == Solids(ts) ==> (Matches(ItemsOf(ts), s, i, j) <==> Fits(ts, s[i..j], true))
    decreases |ts|
  {
    if ts != [] {
      var rest := ItemsOf(ts[1..]);
      assert ItemsOf(ts)[1..] == rest && ItemsOf(ts)[0] == ItemOf(ts[0]);
      if ts[0].Star? {
        ShortMatch(ts[1..], s, i, j);
        if Matches(ItemsOf(ts), s, i, j) {
          var k: nat :| i <= k <= j && AllAccepted(Dot, s, i, k) && Matches(rest, s, k, j);
          ShortMatch(ts[1..], s, k, j);
        }
      } else if i < j {
        assert s[i..j][1..] == s[i + 1..j];
        ShortMatch(ts[1..], s, i + 1, j);
      }
    }
  }

  /** A set that is not kept takes some character on one side only, and no other token does. */
  lemma FaithfulTakes(t: Token) returns (x: char)
    requires TokenOk(t) && !t.Star?
    ensures Faithful(t) <==> Takes(t, x, false) == Takes(t, x, true)
    ensures Faithful(t) ==> forall y :: Takes(t, y, false) == Takes(t, y, true)
  {
    x := 'a';
    if Faithful(t) {
      forall y ensures Takes(t, y, false) == Takes(t, y, true) {
        SameCharacters(t, y);
      }
    } else {
      KeptIsExact(t.body);
      x :| InSet(t.body, x) != InSet(Rotate(t.body), x);
    }
  }

  /** From a name that fits on one side, one that fits on one side only. */
  lemma {:induction false} FitsApart(ts: seq<Token>, s: string, translated: bool) returns (r: string)
    requires Fits(ts, s, translated) && forall t :: t in ts ==> TokenOk(t)
    requires exists t :: t in ts && !Faithful(t)
    ensures Fits(ts, r, false) != Fits(ts, r, true)
  {
    var t, rest := ts[0], ts[1..];
    if t.Star? {
      assert Faithful(t) && ts == [t] + rest;
      r := FitsApart(rest, s, translated);
    } else if !Fits(rest, s[1..], !translated) {
      r := s;
    } else {
      var x := FaithfulTakes(t);
      if Faithful(t) {
        assert ts == [t] + rest;
        var q := FitsApart(rest, s[1..], translated);
        r := [s[0]] + q;
        assert r[1..] == q;
      } else {
        r := [x] + s[1..];
        assert r[1..] == s[1..];
      }
    }
  }

  /** A token that takes no character at all. */
  ghost predicate Barren(t: Token, translated: bool) {
    !t.Star? && forall x :: !Takes(t, x, translated)
  }

  ghost predicate Hopeless(ts: seq<Token>, translated: bool) {
    exists t :: t in ts && Barren(t, translated)
  }

  lemma {:induction false} ShortestName(ts: seq<Token>, translated: bool) returns (s: string)
    requires !Hopeless(ts, translated)
    ensures Fits(ts, s, translated)
  {
    if ts == [] {
      return "";
    }
    assert ts[0] in ts && !Barren(ts[0], translated);
    s := ShortestName(ts[1..], translated);
    if !ts[0].Star? {
      var x :| Takes(ts[0], x, translated);
      assert ([x] + s)[1..] == s;
      s := [x] + s;
    }
  }

  lemma {:induction false} HopelessGlob(ts: seq<Token>, s: string, i: nat, j: nat)
    requires Hopeless(ts, false) && i <= j <= |s|
    ensures !Glob(ts, s, i, j)
    decreases |ts|
  {
    if ts[0].Star? {
      assert ts == [ts[0]] + ts[1..];
      forall k: nat | i <= k <= j ensures !Glob(ts[1..], s, k, j) {
        HopelessGlob(ts[1..], s, k, j);
      }
    } else if i < j && !Barren(ts[0], false) {
      assert ts == [ts[0]] + ts[1..];
      HopelessGlob(ts[1..], s, i + 1, j);
    } else if i < j {
      assert !Takes(ts[0], s[i], false) && !Takes(ts[0], 'a', false);
    }
  }

  lemma {:induction false} HopelessMatch(ts: seq<Token>, s: string, i: nat, j: nat)
    requires Hopeless(ts, true) && i <= j <= |s|
    ensures !Matches(ItemsOf(ts), s, i, j)
    decreases |ts|
  {
    assert ts == [ts[0]] + ts[1..];
    assert ItemsOf(ts)[1..] == ItemsOf(ts[1..]) && ItemsOf(ts)[0] == ItemOf(ts[0]);
    if ts[0].Star? {
      forall k: nat | i <= k <= j ensures !Matches(ItemsOf(ts[1..]), s, k, j) {
        HopelessMatch(ts[1..], s, k, j);
      }
    } else if i < j {
      if Barren(ts[0], true) {
        assert !Takes(ts[0], s[i], true);
      } else {
        HopelessMatch(ts[1..], s, i + 1, j);
      }
    }
  }

  /** What `fnmatchcase` answers. */
  predicate Accepted(pat: string, name: string) {
    RegexMatch(EmitAll(Tokenize(pat)), name) == |name|
  }

  lemma AcceptedIsMatch(pat: string, name: string)
    ensures Accepted(pat, name) <==> Matches(ItemsOf(Tokenize(pat)), name, 0, |name|)
  {
    var ts := Tokenize(pat);
    TokensOk(pat);
    ParseEmitAll(ts);
    StarsAreDots(ts);
    LengthTestDecides(ItemsOf(ts), name);
  }

  ghost predicate RightWithinLines(pat: string, name: string) {
    Accepted(pat, name) <==> LineGlob(Tokenize(pat), name, 0, |name|)
  }

  ghost predicate Right(pat: string, name: string) {
    Accepted(pat, name) <==> Glob(Tokenize(pat), name, 0, |name|)
  }

  predicate AllFaithful(pat: string) {
    forall t :: t in Tokenize(pat) ==> Faithful(t)
  }

  /** The pattern matches no name, and its translation matches none either. */
  ghost predicate NothingToMatch(pat: string) {
    Hopeless(Tokenize(pat), false) && Hopeless(Tokenize(pat), true)
  }

  lemma NothingMatches(pat: string, name: string)
    requires NothingToMatch(pat)
    ensures RightWithinLines(pat, name) && Right(pat, name)
  {
    HopelessGlob(Tokenize(pat), name, 0, |name|);
    HopelessMatch(Tokenize(pat), name, 0, |name|);
    LineGlobIsGlob(Tokenize(pat), name, 0, |name|);
    AcceptedIsMatch(pat, name);
  }

  /** Unless nothing matches at all, a set that is not kept is wrong for a shortest name. */
  lemma UnkeptIsWrong(pat: string) returns (name: string)
    requires !AllFaithful(pat) && !NothingToMatch(pat)
    ensures !RightWithinLines(pat, name) && |name| == Solids(Tokenize(pat))
  {
    var ts, translated := Tokenize(pat), Hopeless(Tokenize(pat), false);
    TokensOk(pat);
    var s := ShortestName(ts, translated);
    name := FitsApart(ts, s, translated);
    FitsLength(ts, name, Fits(ts, name, true));
    assert name[0..|name|] == name;
    ShortLineGlob(ts, name, 0, |name|);
    ShortMatch(ts, name, 0, |name|);
    AcceptedIsMatch(pat, name);
  }

  /** The test is right about all names, within lines, if and only if all sets of the pattern are kept
      or nothing matches anyway. */
  lemma TestIsRightWithinLines(pat: string)
    ensures (forall name :: RightWithinLines(pat, name)) <==> AllFaithful(pat) || NothingToMatch(pat)
  {
    if NothingToMatch(pat) {
      forall name ensures RightWithinLines(pat, name) {
        NothingMatches(pat, name);
      }
    } else if AllFaithful(pat) {
      forall name ensures RightWithinLines(pat, name) {
        TestIsExact(pat, name);
      }
    } else {
      var name := UnkeptIsWrong(pat);
    }
  }

  /** On a shortest name that the translation matches, lines do not matter. */
  lemma {:induction false} ShortGlob(ts: seq<Token>, s: string, i: nat, j: nat)
    requires i <= j <= |s| && j - i <= Solids(ts)
    requires Fits(ts, s[i..j], true) && Glob(ts, s, i, j) && forall t :: t in ts ==> TokenOk(t)
    ensures Fits(ts, s[i..j], false)
    decreases |ts|
  {
    if ts != [] {
      if ts[0].Star? {
        var k: nat :| i <= k <= j && Glob(ts[1..], s, k, j);
        GlobLength(ts[1..], s, k, j);
        ShortGlob(ts[1..], s, i, j);
      } else {
        assert s[i..j][1..] == s[i + 1..j];
        ShortGlob(ts[1..], s, i + 1, j);
      }
    }
  }

  lemma {:induction false} GlobLength(ts: seq<Token>, s: string, i: nat, j: nat)
    requires i <= j <= |s| && Glob(ts, s, i, j)
    ensures j - i >= Solids(ts)
    decreases |ts|
  {
    if ts != [] {
      if ts[0].Star? {
        var k: nat :| i <= k <= j && Glob(ts[1..], s, k, j);
        GlobLength(ts[1..], s, k, j);
      } else {
        GlobLength(ts[1..], s, i + 1, j);
      }
    }
  }

  lemma WrongWithinLinesIsWrong(pat: string, name: string)
    requires !RightWithinLines(pat, name) && |name| == Solids(Tokenize(pat))
    ensures !Right(pat, name)
  {
    var ts := Tokenize(pat);
    TokensOk(pat);
    LineGlobIsGlob(ts, name, 0, |name|);
    if Accepted(pat, name) && Glob(ts, name, 0, |name|) {
      AcceptedIsMatch(pat, name);
      assert name[0..|name|] == name;
      ShortMatch(ts, name, 0, |name|);
      ShortGlob(ts, name, 0, |name|);
      ShortLineGlob(ts, name, 0, |name|);
    }
  }

  /** Kept sets take something in the pattern if they do in the translation. */
  lemma FaithfulHope(pat: string)
    requires AllFaithful(pat)
    ensures Hopeless(Tokenize(pat), false) <==> Hopeless(Tokenize(pat), true)
  {
    TokensOk(pat);
    forall t | t in Tokenize(pat) ensures Barren(t, false) <==> Barren(t, true) {
      if !t.Star? {
        var x := FaithfulTakes(t);
      }
    }
  }

  predicate NoWild(pat: string) {
    forall t :: t in Tokenize(pat) ==> !Wild(t)
  }

  /** With kept sets, newlines in names are the only trouble. */
  lemma FaithfulIsRight(pat: string)
    requires AllFaithful(pat) && !NothingToMatch(pat)
    ensures (forall name :: Right(pat, name)) <==> NoWild(pat)
  {
    var ts := Tokenize(pat);
    FaithfulHope(pat);
    forall name ensures RightWithinLines(pat, name) {
      TestIsExact(pat, name);
    }
    hide AllFaithful, Hopeless, Tokenize, Accepted, Matches, Fits, Solids;
    var s := ShortestName(ts, false);
    FitsLength(ts, s, false);
    assert s[0..|s|] == s;
    ShortLineGlob(ts, s, 0, |s|);
    LineGlobIsGlob(ts, s, 0, |s|);
    NewlinesMatter(ts, s);
    if NoWild(pat) {
      forall name ensures Right(pat, name) {
        TameGlobIsLineGlob(ts, name, 0, |name|);
        assert RightWithinLines(pat, name);
      }
    } else {
      var name :| Glob(ts, name, 0, |name|) && !LineGlob(ts, name, 0, |name|);
      assert RightWithinLines(pat, name) && !Right(pat, name);
    }
  }

  /** The test is right about all names, newlines included, if and only if besides that there is no '*'
      or '?' in the pattern, or nothing matches anyway. */
  lemma TestIsRight(pat: string)
    ensures (forall name :: Right(pat, name)) <==> (AllFaithful(pat) && NoWild(pat)) || NothingToMatch(pat)
  {
    hide AllFaithful, NoWild, Right, RightWithinLines;
    if NothingToMatch(pat) {
      forall name ensures Right(pat, name) {
        NothingMatches(pat, name);
      }
    } else if AllFaithful(pat) {
      FaithfulIsRight(pat);
    } else {
      var name := UnkeptIsWrong(pat);
      WrongWithinLinesIsWrong(pat, name);
    }
  }

  // ---------- Some patterns ----------

  lemma OneTokenAccepted(pat: string, t: Token, name: string)
    requires Tokenize(pat) == [t] && Faithful(t)
    ensures Accepted(pat, name) <==>
      if t.Star? then NoNewline(name, 0, |name|) else |name| == 1 && Takes(t, name[0], false)
  {
    TestIsExact(pat, name);
    assert [t][1..] == [];
    assert LineGlob([], name, |name|, |name|);
  }

  /** A '*' accepts every line, a '?' every character of a line, and an ordinary character itself. */
  lemma WildPatterns(c: char, name: string)
    requires c != '*' && c != '?' && c != '['
    ensures Accepted("*", name) <==> '\n' !in name
    ensures Accepted("?", name) <==> |name| == 1 && name != "\n"
    ensures Accepted([c], name) <==> name == [c]
  {
    assert "*"[1..] == "" && "?"[1..] == "" && [c][1..] == "";
    assert Tokenize("*") == [Star] && Tokenize("?") == [Any] && Tokenize([c]) == [Literal(c)];
    OneTokenAccepted("*", Star, name);
    OneTokenAccepted("?", Any, name);
    OneTokenAccepted([c], Literal(c), name);
  }

  lemma SetEndsAt(pat: string, i: nat, j: nat)
    requires 1 <= i < j < |pat| && pat[j] == ']' && (i == 1 <==> pat[1] != '!') && i <= 2
    requires forall p :: i < p < j ==> pat[p] != ']'
    ensures SetEnd(pat, 1) == j
  {
    FindCloseAt(pat, if pat[i] == ']' then i + 1 else i, j);
  }

  lemma TokenOfSet(pat: string, j: nat)
    requires |pat| == j + 1 && j > 1 && pat[0] == '[' && SetEnd(pat, 1) == j
    ensures Tokenize(pat) == [SetToken(pat[1..j])]
  {
    assert pat[j + 1..] == "";
    hide SetEnd, SetToken;
    assert Tokenize("") == [];
  }

  /** A set ends at the first ']' that is not its first character. */
  lemma PlainSetToken(body: string)
    requires body != "" && ']' !in body[1..] && body[0] != '!'
    ensures Tokenize("[" + body + "]") == [Set(false, body)]
  {
    var pat, j := "[" + body + "]", 1 + |body|;
    assert pat[1..j] == body && pat[1] == body[0] && pat[j] == ']';
    forall p | 1 < p < j ensures pat[p] != ']' {
      assert pat[p] == body[1..][p - 2];
    }
    hide Tokenize, SetEnd;
    SetEndsAt(pat, 1, j);
    TokenOfSet(pat, j);
  }

  /** A leading '!' negates it. */
  lemma NegatedSetToken(body: string)
    requires body != "" && ']' !in body[1..]
    ensures Tokenize("[!" + body + "]") == [Set(true, body)]
  {
    var pat, j := "[!" + body + "]", 2 + |body|;
    assert pat[1..j] == "!" + body && pat[2] == body[0] && pat[j] == ']';
    assert ("!" + body)[1..] == body;
    forall p | 2 < p < j ensures pat[p] != ']' {
      assert pat[p] == body[1..][p - 3];
    }
    hide Tokenize, SetEnd;
    SetEndsAt(pat, 2, j);
    TokenOfSet(pat, j);
  }

  lemma RangeSet(a: char, b: char, x: char)
    ensures InSet([a, '-', b], x) <==> a <= x <= b
  {
    assert [a, '-', b][3..] == "";
  }

  /** "[a-b]" accepts the characters from a to b, and "[!a-b]" all others. */
  lemma RangePattern(a: char, b: char, name: string)
    requires a != '!' && a != '^' && b != ']'
    ensures Accepted("[" + [a, '-', b] + "]", name) <==> |name| == 1 && a <= name[0] <= b
    ensures Accepted("[!" + [a, '-', b] + "]", name) <==> |name| == 1 && !(a <= name[0] <= b)
  {
    var body := [a, '-', b];
    KeptIsExact(body);
    if |name| == 1 {
      RangeSet(a, b, name[0]);
    }
    PlainSetToken(body);
    NegatedSetToken(body);
    hide Tokenize, Accepted, InSet, Kept;
    OneTokenAccepted("[" + body + "]", Set(false, body), name);
    OneTokenAccepted("[!" + body + "]", Set(true, body), name);
  }

  /** In "[^-z]" the caret is moved behind a range that it was the start of: 'a' is in the set as
      written, but not in the set of the translation. */
  lemma CaretRangeIsLost()
    ensures Tokenize("[^-z]") == [Set(false, "^-z")]
    ensures TokenAccepts(Set(false, "^-z"), 'a') && !AtomAccepts(ItemOf(Set(false, "^-z")).atom, 'a')
  {
    var pat := "[^-z]";
    FindCloseAt(pat, 1, 4);
    assert pat[1..4] == "^-z" && pat[5..] == "";
    var body := "^-z";
    assert body[1] != '^' && !AllCarets(body);
    assert body[1..] + [body[0]] == "-z^" && "-z^"[0] == '-';
    assert Rotate(body) == "-z^";
    assert "-z^"[1..] == "z^" && "z^"[1..] == "^" && "^"[1..] == "";
    assert !InSet("", 'a') && !InSet("^", 'a') && !InSet("z^", 'a') && !InSet("-z^", 'a');
  }

  /** In "[^a-z]" it is moved behind a range that it has no part in. */
  lemma CaretBeforeRangeIsKept()
    ensures Faithful(Set(false, "^a-z"))
  {
    var body := "^a-z";
    assert body[1] != '^' && !AllCarets(body);
    assert body[1..] == "a-z" && Carets("a-z") == 0 && Carets(body) == 1;
    assert "a-z"[3..] == "" && !Dangles("a-z");
    KeptIsExact(body);
  }

  /** A newline in the name defeats the dot: "*" stands for any name, but the match stops short. */
  lemma NewlineIsLost()
    ensures Glob([Star], "\n", 0, 1) && Greedy(ItemsOf([Star]), "\n", 0) == Some(0)
  {
    assert Glob([], "\n", 1, 1) && [Star][1..] == [];
    assert ItemsOf([Star]) == [Item(Dot, true)] && [Item(Dot, true)][1..] == [];
    assert RunEnd(Dot, "\n", 0) == 0;
  }

  // ---------- The methods ----------

  /** `translate`. */
  method Translate(pat: string) returns (res: string)
    ensures res == EmitAll(Tokenize(pat))
  {
    hide EmitAll, Tokenize;
    var i, n := 0, |pat|;
    res := "";
    assert pat[0..] == pat && "" + EmitAll(Tokenize(pat)) == EmitAll(Tokenize(pat));
    while i < n
      invariant 0 <= i <= n
      invariant res + EmitAll(Tokenize(pat[i..])) == EmitAll(Tokenize(pat))
    {
      var piece;
      piece, i := TranslateNext(pat, i);
      Associate(res, piece, EmitAll(Tokenize(pat[i..])));
      res := res + piece;
    }
    EmitNothing();
    assert pat[n..] == "" && res + "" == res;
  }

  lemma EmitNothing()
    ensures EmitAll(Tokenize("")) == ""
  {
  }

  /** One round of the loop of `translate`: the text for the token at i, and where the next one
      starts. */
  method TranslateNext(pat: string, i0: nat) returns (piece: string, i: nat)
    requires i0 < |pat|
    ensures i0 < i <= |pat|
    ensures EmitAll(Tokenize(pat[i0..])) == piece + EmitAll(Tokenize(pat[i..]))
  {
    hide EmitAll, Tokenize, SetEnd, SetToken, Emit;
    var c := pat[i0];
    i := i0 + 1;
    if c == '*' {
      OneCharacter(pat, i0, Star);
      piece := ".*";
    } else if c == '?' {
      OneCharacter(pat, i0, Any);
      piece := ".";
    } else if c == '[' {
      var j := ScanSet(pat, i0);
      if j >= |pat| {
        OneCharacter(pat, i0, Literal('['));
        piece := "\\[";
      } else {
        WholeSet(pat, i0, j);
        piece := TranslateSet(pat[i..j]);
        i := j + 1;
      }
    } else {
      OneCharacter(pat, i0, Literal(c));
      piece := if Special(c) then "\\" + [c] else [c];
    }
  }

  lemma OneCharacter(pat: string, i: nat, t: Token)
    requires i < |pat|
    requires match pat[i]
      case '*' => t == Star
      case '?' => t == Any
      case '[' => t == Literal('[') && SetEnd(pat[i..], 1) == |pat| - i
      case c => t == Literal(c)
    ensures EmitAll(Tokenize(pat[i..])) == Emit(t) + EmitAll(Tokenize(pat[i + 1..]))
    ensures Emit(t) == match t
      case Star => ".*"
      case Any => "."
      case Literal(c) => (if Special(c) || c == '[' then "\\" + [c] else [c])
      case _ => ""
  {
    var rest := pat[i..];
    assert rest[1..] == pat[i + 1..];
    TokenizeStep(rest);
    hide EmitAll, Tokenize, SetEnd;
    EmitStep(t, pat[i + 1..]);
  }

  lemma WholeSet(pat: string, i: nat, j: nat)
    requires i + 1 < j < |pat| && pat[i] == '[' && SetEnd(pat[i..], 1) == j - i
    ensures EmitAll(Tokenize(pat[i..])) == Emit(SetToken(pat[i + 1..j])) + EmitAll(Tokenize(pat[j + 1..]))
  {
    var rest := pat[i..];
    assert rest[1..j - i] == pat[i + 1..j] && rest[j - i + 1..] == pat[j + 1..];
    TokenizeStep(rest);
    hide EmitAll, Tokenize, SetEnd, SetToken, Emit;
    EmitStep(SetToken(pat[i + 1..j]), pat[j + 1..]);
  }

  lemma TokenizeStep(s: string)
    requires s != ""
    ensures s[0] == '*' ==> Tokenize(s) == [Star] + Tokenize(s[1..])
    ensures s[0] == '?' ==> Tokenize(s) == [Any] + Tokenize(s[1..])
    ensures s[0] == '[' && SetEnd(s, 1) < |s| ==>
      Tokenize(s) == [SetToken(s[1..SetEnd(s, 1)])] + Tokenize(s[SetEnd(s, 1) + 1..])
    ensures s[0] == '[' && SetEnd(s, 1) == |s| ==> Tokenize(s) == [Literal('[')] + Tokenize(s[1..])
    ensures s[0] != '*' && s[0] != '?' && s[0] != '[' ==> Tokenize(s) == [Literal(s[0])] + Tokenize(s[1..])
  {
  }

  /** The search for the end of the set that opens at i0. */
  method ScanSet(pat: string, i0: nat) returns (j: nat)
    requires i0 < |pat|
    ensures i0 < j <= |pat| && SetEnd(pat[i0..], 1) == j - i0
    ensures j < |pat| ==> j > i0 + 1
  {
    var n := |pat|;
    j := i0 + 1;
    if j < n && pat[j] == '!' {
      j := j + 1;
    }
    if j < n && pat[j] == ']' {
      j := j + 1;
    }
    ghost var j2 := j;
    while j < n && pat[j] != ']'
      invariant j2 <= j <= n
      invariant forall k :: j2 <= k < j ==> pat[k] != ']'
    {
      j := j + 1;
    }
    SetEndIs(pat, i0, j2, j);
  }

  lemma Associate(a: string, b: string, c: string)
    ensures a + (b + c) == (a + b) + c
  {
  }

  lemma EmitStep(t: Token, rest: string)
    ensures EmitAll([t] + Tokenize(rest)) == Emit(t) + EmitAll(Tokenize(rest))
  {
    assert ([t] + Tokenize(rest))[1..] == Tokenize(rest);
  }

  lemma SetEndIs(pat: string, i0: nat, j2: nat, j: nat)
    requires i0 < |pat| && i0 + 1 <= j2 <= j <= |pat|
    requires var j1 := if i0 + 1 < |pat| && pat[i0 + 1] == '!' then i0 + 2 else i0 + 1;
      j2 == if j1 < |pat| && pat[j1] == ']' then j1 + 1 else j1
    requires (j < |pat| ==> pat[j] == ']') && forall k :: j2 <= k < j ==> pat[k] != ']'
    ensures SetEnd(pat[i0..], 1) == j - i0
  {
    var rest := pat[i0..];
    if j < |pat| {
      FindCloseAt(rest, j2 - i0, j - i0);
    }
  }

  /** The translation of a bracket set from its contents. */
  method TranslateSet(stuff0: string) returns (stuff: string)
    requires stuff0 != ""
    ensures stuff == Emit(SetToken(stuff0))
  {
    stuff := stuff0;
    if stuff[0] == '!' {
      stuff := "[^" + stuff[1..] + "]";
    } else if AllCarets(stuff) {
      stuff := "\\^";
    } else {
      while stuff[0] == '^'
        invariant stuff != "" && !AllCarets(stuff) && Rotate(stuff) == Rotate(stuff0)
        decreases Carets(stuff)
      {
        CaretsRotate(stuff);
        ghost var i :| 0 <= i < |stuff| && stuff[i] != '^';
        assert (stuff[1..] + [stuff[0]])[i - 1] == stuff[i];
        stuff := stuff[1..] + [stuff[0]];
      }
      stuff := "[" + stuff + "]";
    }
  }

  /** The module with its cache of compiled patterns. */
  class Matcher {
    var cache: map<string, Option<seq<Item>>>

    ghost predicate Valid()
      reads this
    {
      forall pat :: pat in cache ==> cache[pat] == ParseRegex(EmitAll(Tokenize(pat)))
    }

    constructor ()
      ensures Valid()
    {
      cache := map[];
    }

    /** `fnmatchcase`. */
    method FnmatchCase(name: string, pat: string) returns (b: bool)
      requires Valid()
      modifies this
      ensures Valid()
      ensures b == (RegexMatch(EmitAll(Tokenize(pat)), name) == |name|)
      ensures (forall t :: t in Tokenize(pat) ==> Faithful(t)) ==>
        && (b <==> LineGlob(Tokenize(pat), name, 0, |name|))
        && (b ==> Glob(Tokenize(pat), name, 0, |name|))
        && (NoNewline(name, 0, |name|) ==> (b <==> Glob(Tokenize(pat), name, 0, |name|)))
    {
      if pat !in cache {
        var res := Translate(pat);
        cache := cache[pat := ParseRegex(res)];
      }
      TokensOk(pat);
      ParseEmitAll(Tokenize(pat));
      var r := Greedy(cache[pat].value, name, 0);
      b := r == Some(|name|);
      if forall t :: t in Tokenize(pat) ==> Faithful(t) {
        TestIsExact(pat, name);
      }
    }
  }
}
