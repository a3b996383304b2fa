/** The edit distance behind spelling suggestions (rex-lsp/src/code_actions.rs:825-852). */
module Levenshtein {
  import opened Wrappers

  function Min(a: nat, b: nat): nat { if a <= b then a else b }

  function Differ(a: char, b: char): nat { if a != b then 1 else 0 }

  function Front(s: string): string
    requires s != []
  {
    s[..|s| - 1]
  }

  function Last(s: string): char
    requires s != []
  {
    s[|s| - 1]
  }

  /** The distance by recursion on the ends of the texts. */
  function Distance(a: string, b: string): nat
    decreases |a| + |b|
  {
    if a == [] then |b|
    else if b == [] then |a|
    else
      Min(Min(Distance(a, Front(b)) + 1, Distance(Front(a), b) + 1),
          Distance(Front(a), Front(b)) + Differ(Last(a), Last(b)))
  }

  // ---- the two rows -----------------------------------------------------------------------------------------

  ghost predicate IsRow(row: array<nat>, upto: nat, a: string, b: string)
    requires upto <= |b| + 1 == row.Length
    reads row
  {
    forall j :: 0 <= j < upto ==> row[j] == Distance(a, b[..j])
  }

  lemma {:induction false} FirstRow(row: array<nat>, b: string)
    requires row.Length == |b| + 1 && forall k :: 0 <= k <= |b| ==> row[k] == k
    ensures IsRow(row, |b| + 1, [], b)
  {
    forall j | 0 <= j <= |b| ensures row[j] == Distance([], b[..j]) { DistanceFromNothing([], b[..j]); }
  }

  method LevenshteinDistance(left: string, right: string) returns (distance: nat)
    ensures distance == Distance(left, right)
  {
    hide Distance;
    DistanceFromNothing(left, right);
    if left == right {
      NoDistance(left);
      return 0;
    }
    if |left| == 0 {
      return |right|;
    }
    if |right| == 0 {
      return |left|;
    }
    var prev := new nat[|right| + 1](k => k);
    var cur := new nat[|right| + 1](_ => 0);
    FirstRow(prev, right);
    assert left[..0] == [];
    for i := 0 to |left|
      invariant prev != cur && fresh(prev) && fresh(cur) && prev.Length == cur.Length == |right| + 1
      invariant IsRow(prev, |right| + 1, left[..i], right)
    {
      cur[0] := i + 1;
      DistanceFromNothing(left[..i + 1], right[..0]);
      for j := 0 to |right|
        invariant prev.Length == cur.Length == |right| + 1
        invariant IsRow(prev, |right| + 1, left[..i], right)
        invariant IsRow(cur, j + 1, left[..i + 1], right)
      {
        var insertCost := cur[j] + 1;
        var deleteCost := prev[j + 1] + 1;
        var replaceCost := prev[j] + if left[i] != right[j] then 1 else 0;
        OneCell(left, right, i, j);
        cur[j + 1] := Min(Min(insertCost, deleteCost), replaceCost);
      }
      prev, cur := cur, prev;
    }
    assert left[..|left|] == left && right[..|right|] == right;
    return prev[|right|];
  }

  lemma {:induction false} OneCell(left: string, right: string, i: nat, j: nat)
    requires i < |left| && j < |right|
    ensures Distance(left[..i + 1], right[..j + 1])
         == Min(Min(Distance(left[..i + 1], right[..j]) + 1, Distance(left[..i], right[..j + 1]) + 1),
                Distance(left[..i], right[..j]) + Differ(left[i], right[j]))
  {
    hide Distance, Min;
    DistanceStep(left[..i + 1], right[..j + 1]);
    assert Front(left[..i + 1]) == left[..i] && Front(right[..j + 1]) == right[..j];
  }

  lemma {:induction false} DistanceStep(a: string, b: string)
    requires a != [] && b != []
    ensures Distance(a, b)
         == Min(Min(Distance(a, Front(b)) + 1, Distance(Front(a), b) + 1),
                Distance(Front(a), Front(b)) + Differ(Last(a), Last(b)))
  {
    hide Min, Front, Last, Differ;
  }

  lemma {:induction false} DistanceFromNothing(a: string, b: string)
    ensures a == [] ==> Distance(a, b) == |b|
    ensures b == [] ==> Distance(a, b) == |a|
  {
  }

  // ---- edit scripts -------------------------------------------------------------------------------------------

  datatype Edit = Keep | Replace(with: char) | Insert(inserted: char) | Delete

  /** The edits applied from left to right; they have to use up the text. */
  function Apply(script: seq<Edit>, s: string): Option<string>
    decreases |script|
  {
    if script == [] then if s == [] then Some([]) else None
    else
      match script[0]
      case Insert(c) => Emit([c], Apply(script[1..], s))
      case Delete => if s == [] then None else Apply(script[1..], s[1..])
      case Replace(c) => if s == [] then None else Emit([c], Apply(script[1..], s[1..]))
      case Keep => if s == [] then None else Emit([s[0]], Apply(script[1..], s[1..]))
  }

  function Emit(s: string, r: Option<string>): Option<string> {
    if r.None? then None else Some(s + r.value)
  }

  function Cost(script: seq<Edit>): nat {
    if script == [] then 0 else (if script[0].Keep? then 0 else 1) + Cost(script[1..])
  }

  /** What one edit takes from the text and puts in its place. */
  function Takes(e: Edit): nat { if e.Insert? then 0 else 1 }

  function Puts(e: Edit, taken: string): string
    requires |taken| == Takes(e)
  {
    match e
    case Keep => taken
    case Replace(c) => [c]
    case Insert(c) => [c]
    case Delete => []
  }

  lemma {:induction false} EmitThen(c: string, s: string, t: string)
    ensures Emit(c, Some(s + t)) == Some(Emit(c, Some(s)).value + t)
  {
    assert c + (s + t) == (c + s) + t;
  }

  lemma {:induction false} ApplyThen(script: seq<Edit>, e: Edit, s: string, taken: string)
    requires |taken| == Takes(e) && Apply(script, s).Some?
    ensures Apply(script + [e], s + taken) == Some(Apply(script, s).value + Puts(e, taken))
    decreases |script|
  {
    if script == [] {
      assert (script + [e])[1..] == [] && s + taken == taken && taken[Takes(e)..] == [];
      assert Apply([], []) == Some([]);
      assert [] + Puts(e, taken) == Puts(e, taken) + [] && (e.Keep? ==> taken == [taken[0]]);
      assert script + [e] == [e];
    } else {
      assert (script + [e])[0] == script[0] && (script + [e])[1..] == script[1..] + [e];
      if script[0].Insert? {
        ApplyThen(script[1..], e, s, taken);
        EmitThen([script[0].inserted], Apply(script[1..], s).value, Puts(e, taken));
      } else {
        assert (s + taken)[1..] == s[1..] + taken;
        ApplyThen(script[1..], e, s[1..], taken);
        EmitThen([s[0]], Apply(script[1..], s[1..]).value, Puts(e, taken));
        if script[0].Replace? { EmitThen([script[0].with], Apply(script[1..], s[1..]).value, Puts(e, taken)); }
      }
    }
  }

  /** Every script that ends with an edit does its work before that edit does the rest. */
  lemma {:induction false} ApplyBefore(script: seq<Edit>, e: Edit, s: string) returns (n: nat)
    requires Apply(script + [e], s).Some?
    ensures n + Takes(e) == |s| && Apply(script, s[..n]).Some?
    ensures Apply(script + [e], s).value == Apply(script, s[..n]).value + Puts(e, s[n..])
    decreases |script|
  {
    if script == [] {
      n := 0;
      assert (script + [e])[1..] == [] && s[0..] == s;
      assert Apply([], s[..0]) == Some([]);
    } else {
      assert (script + [e])[0] == script[0] && (script + [e])[1..] == script[1..] + [e];
      if script[0].Insert? {
        n := ApplyBefore(script[1..], e, s);
        EmitThen([script[0].inserted], Apply(script[1..], s[..n]).value, Puts(e, s[n..]));
      } else {
        var m := ApplyBefore(script[1..], e, s[1..]);
        n := m + 1;
        EmitThen([s[0]], Apply(script[1..], s[1..][..m]).value, Puts(e, s[1..][m..]));
        if script[0].Replace? { EmitThen([script[0].with], Apply(script[1..], s[1..][..m]).value, Puts(e, s[1..][m..])); }
        assert s[..n][0] == s[0] && s[..n][1..] == s[1..][..m] && s[n..] == s[1..][m..];
      }
    }
  }

  lemma {:induction false} CostThen(script: seq<Edit>, e: Edit)
    ensures Cost(script + [e]) == Cost(script) + Cost([e])
  {
    if script != [] {
      assert (script + [e])[0] == script[0] && (script + [e])[1..] == script[1..] + [e];
      CostThen(script[1..], e);
    } else {
      assert script + [e] == [e];
    }
  }

  // ---- the distance is the cost of a cheapest script -------------------------------------------------------------

  /** No script that makes `b` out of `a` is cheaper. */
  lemma {:induction false} NoCheaperScript(script: seq<Edit>, a: string, b: string)
    requires Apply(script, a) == Some(b)
    ensures Cost(script) >= Distance(a, b)
    decreases |script|
  {
    if script != [] {
      var front, e := script[..|script| - 1], script[|script| - 1];
      assert script == front + [e];
      var n := ApplyBefore(front, e, a);
      var b' := Apply(front, a[..n]).value;
      NoCheaperScript(front, a[..n], b');
      CostThen(front, e);
      LastEdit(a, n, b', e);
    }
  }

  /** The last edit costs at least what it adds to the distance. */
  lemma {:induction false} LastEdit(a: string, n: nat, b': string, e: Edit)
    requires n + Takes(e) == |a|
    ensures Distance(a, b' + Puts(e, a[n..])) <= Distance(a[..n], b') + Cost([e])
  {
    var b := b' + Puts(e, a[n..]);
    assert Cost([e]) == if e.Keep? then 0 else 1;
    match e
    case Insert(_) =>
      assert a[..n] == a && Front(b) == b';
    case Delete =>
      assert b == b' && Front(a) == a[..n];
    case Replace(_) =>
      assert Front(b) == b' && Front(a) == a[..n];
    case Keep =>
      assert Front(b) == b' && Front(a) == a[..n] && Last(a) == Last(b);
  }

  /** A script that makes `b` out of `a` at the cost of the distance. */
  function Script(a: string, b: string): seq<Edit>
    decreases |a| + |b|
  {
    if a == [] && b == [] then []
    else if a == [] then Script(a, Front(b)) + [Insert(Last(b))]
    else if b == [] then Script(Front(a), b) + [Delete]
    else
      var insert, delete, replace :=
        Distance(a, Front(b)) + 1, Distance(Front(a), b) + 1, Distance(Front(a), Front(b)) + Differ(Last(a), Last(b));
      if insert <= delete && insert <= replace then Script(a, Front(b)) + [Insert(Last(b))]
      else if delete <= replace then Script(Front(a), b) + [Delete]
      else Script(Front(a), Front(b)) + [if Last(a) == Last(b) then Keep else Replace(Last(b))]
  }

  lemma {:induction false} ScriptAchieves(a: string, b: string)
    ensures Apply(Script(a, b), a) == Some(b) && Cost(Script(a, b)) == Distance(a, b)
    decreases |a| + |b|
  {
    if a != [] || b != [] {
      var e, a', b' := LastOfScript(a, b);
      hide Script, Distance, Cost;
      ScriptAchieves(a', b');
      CostThen(Script(a', b'), e);
      var taken := a[|a'|..];
      ApplyThen(Script(a', b'), e, a', taken);
      assert a' + taken == a && b' + Puts(e, taken) == b;
    }
  }

  lemma {:induction false} LastOfScript(a: string, b: string) returns (e: Edit, a': string, b': string)
    requires a != [] || b != []
    ensures Script(a, b) == Script(a', b') + [e] && Distance(a, b) == Distance(a', b') + Cost([e])
    ensures |a'| + |b'| < |a| + |b| && |a'| + Takes(e) == |a| && a' == a[..|a'|]
    ensures b == b' + Puts(e, a[|a'|..])
  {
    hide Distance, Script;
    ScriptStep(a, b);
    DistanceFromNothing(a, b);
    if a == [] {
      e, a', b' := Insert(Last(b)), a, Front(b);
      DistanceFromNothing(a', b');
    } else if b == [] {
      e, a', b' := Delete, Front(a), b;
      DistanceFromNothing(a', b');
    } else {
      DistanceStep(a, b);
      var insert, delete, replace :=
        Distance(a, Front(b)) + 1, Distance(Front(a), b) + 1, Distance(Front(a), Front(b)) + Differ(Last(a), Last(b));
      if insert <= delete && insert <= replace { e, a', b' := Insert(Last(b)), a, Front(b); }
      else if delete <= replace { e, a', b' := Delete, Front(a), b; }
      else { e, a', b' := if Last(a) == Last(b) then Keep else Replace(Last(b)), Front(a), Front(b); }
    }
    CostOfOne(e);
  }

  lemma {:induction false} CostOfOne(e: Edit)
    ensures Cost([e]) == if e.Keep? then 0 else 1
  {
  }

  lemma {:induction false} ScriptStep(a: string, b: string)
    requires a != [] || b != []
    ensures a == [] ==> Script(a, b) == Script(a, Front(b)) + [Insert(Last(b))]
    ensures b == [] ==> Script(a, b) == Script(Front(a), b) + [Delete]
    ensures a != [] && b != [] ==>
      var insert, delete, replace :=
        Distance(a, Front(b)) + 1, Distance(Front(a), b) + 1, Distance(Front(a), Front(b)) + Differ(Last(a), Last(b));
      Script(a, b) ==
        if insert <= delete && insert <= replace then Script(a, Front(b)) + [Insert(Last(b))]
        else if delete <= replace then Script(Front(a), b) + [Delete]
        else Script(Front(a), Front(b)) + [if Last(a) == Last(b) then Keep else Replace(Last(b))]
  {
    hide Distance, Front, Last, Differ;
  }

  // ---- a metric ------------------------------------------------------------------------------------------------

  lemma {:induction false} NoDistance(s: string)
    ensures Distance(s, s) == 0
    decreases |s|
  {
    if s != [] { NoDistance(Front(s)); }
  }

  lemma {:induction false} OnlyEqualTextsAreAtZero(a: string, b: string)
    ensures Distance(a, b) == 0 <==> a == b
    decreases |a| + |b|
  {
    NoDistance(a);
    if a != [] && b != [] && Distance(a, b) == 0 {
      OnlyEqualTextsAreAtZero(Front(a), Front(b));
      assert a == Front(a) + [Last(a)] && b == Front(b) + [Last(b)];
    }
  }

  lemma {:induction false} Symmetric(a: string, b: string)
    ensures Distance(a, b) == Distance(b, a)
    decreases |a| + |b|
  {
    if a != [] && b != [] {
      Symmetric(Front(a), b);
      Symmetric(a, Front(b));
      Symmetric(Front(a), Front(b));
    }
  }

  lemma {:induction false} Bounds(a: string, b: string)
    ensures |a| <= |b| + Distance(a, b) && |b| <= |a| + Distance(a, b) && Distance(a, b) <= |a| + |b|
    decreases |a| + |b|
  {
    if a != [] && b != [] {
      Bounds(Front(a), b);
      Bounds(a, Front(b));
      Bounds(Front(a), Front(b));
    }
  }

  lemma {:induction false} Triangle(a: string, b: string, c: string)
    ensures Distance(a, c) <= Distance(a, b) + Distance(b, c)
    decreases |a| + |b| + |c|
  {
    Bounds(a, b);
    Bounds(b, c);
    Bounds(a, c);
    if a != [] && b != [] && c != [] {
      Triangle(Front(a), b, c);
      Triangle(a, b, Front(c));
      Triangle(a, Front(b), c);
      Triangle(a, Front(b), Front(c));
      Triangle(Front(a), Front(b), c);
      Triangle(Front(a), Front(b), Front(c));
    }
  }
}
