// The command-line "did you mean" hint: the two-row edit distance, against the
// least number of insertions, deletions and replacements.

module EditDistance {
  import opened Results

  function Min3(a: nat, b: nat, c: nat): nat
  {
    var m := if a < b then a else b;
    if m < c then m else c
  }

  function Cost(x: char, y: char): nat
  {
    if x == y then 0 else 1
  }

  function Init(s: string): string
    requires |s| > 0
  {
    s[..|s| - 1]
  }

  function Last(s: string): char
    requires |s| > 0
  {
    s[|s| - 1]
  }

  /** The recurrence the table fills. */
  function Distance(a: string, b: string): nat
    decreases |a| + |b|
  {
    if |a| == 0 then |b| else if |b| == 0 then |a| else
    Min3(Distance(a, Init(b)) + 1, Distance(Init(a), b) + 1, Distance(Init(a), Init(b)) + Cost(Last(a), Last(b)))
  }

  /** The two-row table. */
  method Levenshtein(a: string, b: string) returns (d: nat)
    ensures d == Distance(a, b)
  {
    hide Distance, Min3;
    var prev := new nat[|b| + 1](_ => 0);
    for j := 0 to |b| + 1
      invariant forall k :: 0 <= k < j ==> prev[k] == Distance(a[..0], b[..k])
    {
      Edges(a, b, 0, j);
      prev[j] := j;
    }
    for i := 0 to |a|
      invariant prev.Length == |b| + 1 && fresh(prev)
      invariant forall k :: 0 <= k <= |b| ==> prev[k] == Distance(a[..i], b[..k])
    {
      prev := NextRow(a, b, i, prev);
    }
    assert a[..|a|] == a && b[..|b|] == b;
    return prev[|b|];
  }

  /** One row of the table from the row above. */
  method NextRow(a: string, b: string, i: nat, prev: array<nat>) returns (cur: array<nat>)
    requires i < |a| && prev.Length == |b| + 1
    requires forall k :: 0 <= k <= |b| ==> prev[k] == Distance(a[..i], b[..k])
    ensures cur.Length == |b| + 1 && fresh(cur)
    ensures forall k :: 0 <= k <= |b| ==> cur[k] == Distance(a[..i + 1], b[..k])
  {
    hide Distance, Min3;
    cur := new nat[|b| + 1](_ => 0);
    Edges(a, b, i + 1, 0);
    cur[0] := i + 1;
    for j := 0 to |b|
      invariant forall k :: 0 <= k <= j ==> cur[k] == Distance(a[..i + 1], b[..k])
    {
      Cell(a, b, i, j);
      cur[j + 1] := Min3(cur[j] + 1, prev[j + 1] + 1, prev[j] + Cost(a[i], b[j]));
    }
  }

  lemma Edges(a: string, b: string, i: nat, j: nat)
    requires i <= |a| && j <= |b|
    ensures Distance(a[..0], b[..j]) == j && Distance(a[..i], b[..0]) == i
  {
  }

  lemma Cell(a: string, b: string, i: nat, j: nat)
    requires i < |a| && j < |b|
    ensures Distance(a[..i + 1], b[..j + 1])
         == Min3(Distance(a[..i + 1], b[..j]) + 1, Distance(a[..i], b[..j + 1]) + 1,
                 Distance(a[..i], b[..j]) + Cost(a[i], b[j]))
  {
    var s, t := a[..i + 1], b[..j + 1];
    assert Init(s) == a[..i] && Init(t) == b[..j] && Last(s) == a[i] && Last(t) == b[j];
    hide Min3, Cost;
  }

  // ---------------------------------------------------------------- a metric

  lemma {:induction false} Symmetric(a: string, b: string)
    ensures Distance(a, b) == Distance(b, a)
    decreases |a| + |b|
  {
    if |a| > 0 && |b| > 0 {
      Symmetric(a, Init(b));
      Symmetric(Init(a), b);
      Symmetric(Init(a), Init(b));
    }
  }

  /** Lengths differ by no more than the distance, and the distance is no more than both lengths. */
  lemma {:induction false} LengthBound(a: string, b: string)
    ensures |a| <= |b| + Distance(a, b) && |b| <= |a| + Distance(a, b) && Distance(a, b) <= |a| + |b|
    decreases |a| + |b|
  {
    if |a| > 0 && |b| > 0 {
      LengthBound(a, Init(b));
      LengthBound(Init(a), b);
      LengthBound(Init(a), Init(b));
    }
  }

  /** One more character at the end costs at most one. */
  lemma Drop(a: string, b: string)
    ensures |a| > 0 ==> Distance(a, b) <= Distance(Init(a), b) + 1
    ensures |b| > 0 ==> Distance(a, b) <= Distance(a, Init(b)) + 1
  {
  }

  lemma {:induction false} Triangle(a: string, b: string, c: string)
    ensures Distance(a, c) <= Distance(a, b) + Distance(b, c)
    decreases |a| + |b| + |c|
  {
    if |a| == 0 || |b| == 0 || |c| == 0 {
      LengthBound(a, b);
      LengthBound(b, c);
      LengthBound(a, c);
    } else {
      var a', b', c' := Init(a), Init(b), Init(c);
      Triangle(a', b, c);
      Triangle(a, b, c');
      Triangle(a, b', c);
      Triangle(a', b', c');
      Triangle(a, b', c');
      Triangle(a', b', c);
      Drop(a, c);
    }
  }

  lemma {:induction false} Reflexive(a: string)
    ensures Distance(a, a) == 0
  {
    if |a| > 0 {
      Reflexive(Init(a));
    }
  }

  lemma {:induction false} ZeroMeansEqual(a: string, b: string)
    requires Distance(a, b) == 0
    ensures a == b
    decreases |a| + |b|
  {
    if |a| > 0 && |b| > 0 {
      ZeroMeansEqual(Init(a), Init(b));
      assert a == Init(a) + [Last(a)] && b == Init(b) + [Last(b)];
    }
  }

  // ---------------------------------------------------------------- edit scripts

  datatype Edit = Insert(at: nat, c: char) | Delete(at: nat) | Replace(at: nat, c: char)

  predicate Applies(e: Edit, s: string)
  {
    if e.Insert? then e.at <= |s| else e.at < |s|
  }

  function Apply(e: Edit, s: string): string
    requires Applies(e, s)
  {
    match e
    case Insert(i, c) => s[..i] + [c] + s[i..]
    case Delete(i) => s[..i] + s[i + 1..]
    case Replace(i, c) => s[..i] + [c] + s[i + 1..]
  }

  /** The script turns s into t, one edit after the other. */
  predicate Turns(script: seq<Edit>, s: string, t: string)
    decreases |script|
  {
    if |script| == 0 then s == t else Applies(script[0], s) && Turns(script[1..], Apply(script[0], s), t)
  }

  lemma AddLast(a: string, b: string, x: char)
    ensures Distance(a + [x], b + [x]) <= Distance(a, b)
  {
    assert Init(a + [x]) == a && Init(b + [x]) == b;
  }

  lemma {:induction false} AddSuffix(a: string, b: string, q: string)
    ensures Distance(a + q, b + q) <= Distance(a, b)
    decreases |q|
  {
    hide Distance;
    if |q| == 0 {
      assert a + q == a && b + q == b;
    } else {
      var init, c := Init(q), Last(q);
      assert q == init + [c];
      assert a + q == (a + init) + [c] && b + q == (b + init) + [c];
      hide Init, Last;
      AddSuffix(a, b, init);
      AddLast(a + init, b + init, c);
    }
  }

  lemma AtMostOne(p: string, u: string, v: string)
    requires |u| <= 1 && |v| <= 1
    ensures Distance(p + u, p + v) <= 1
  {
    Reflexive(p);
    if |u| == 1 { assert Init(p + u) == p; } else { assert p + u == p; }
    if |v| == 1 { assert Init(p + v) == p; } else { assert p + v == p; }
    Drop(p + u, p + v);
    Drop(p, p + v);
  }

  /** One edit moves a string by at most one. */
  lemma OneEdit(e: Edit, s: string)
    requires Applies(e, s)
    ensures Distance(s, Apply(e, s)) <= 1
  {
    var p, i := s[..e.at], e.at;
    var u := if e.Insert? then "" else [s[i]];
    var v := if e.Delete? then "" else [e.c];
    var q := if e.Insert? then s[i..] else s[i + 1..];
    assert s == (p + u) + q && Apply(e, s) == (p + v) + q;
    AtMostOne(p, u, v);
    AddSuffix(p + u, p + v, q);
  }

  /** No script is shorter than the distance. */
  lemma {:induction false} NoShorterScript(script: seq<Edit>, s: string, t: string)
    requires Turns(script, s, t)
    ensures |script| >= Distance(s, t)
    decreases |script|
  {
    if |script| == 0 {
      Reflexive(s);
    } else {
      var m := Apply(script[0], s);
      NoShorterScript(script[1..], m, t);
      OneEdit(script[0], s);
      Triangle(s, m, t);
    }
  }

  lemma {:induction false} TurnsAppend(script: seq<Edit>, s: string, m: string, e: Edit)
    requires Turns(script, s, m) && Applies(e, m)
    ensures Turns(script + [e], s, Apply(e, m))
    decreases |script|
  {
    if |script| == 0 {
      assert script + [e] == [e] && [e][1..] == [];
    } else {
      assert (script + [e])[1..] == script[1..] + [e];
      TurnsAppend(script[1..], Apply(script[0], s), m, e);
    }
  }

  lemma ApplyBefore(e: Edit, s: string, x: char)
    requires Applies(e, s)
    ensures Applies(e, s + [x]) && Apply(e, s + [x]) == Apply(e, s) + [x]
  {
    assert (s + [x])[..e.at] == s[..e.at];
    if e.Insert? {
      assert (s + [x])[e.at..] == s[e.at..] + [x];
    } else {
      assert (s + [x])[e.at + 1..] == s[e.at + 1..] + [x];
    }
  }

  lemma ApplyAtEnd(s: string, x: char, y: char)
    ensures Applies(Insert(|s|, y), s) && Apply(Insert(|s|, y), s) == s + [y]
    ensures Applies(Replace(|s|, y), s + [x]) && Apply(Replace(|s|, y), s + [x]) == s + [y]
  {
  }

  lemma Whole(s: string)
    requires |s| > 0
    ensures |Init(s)| == |s| - 1 && s == Init(s) + [Last(s)]
  {
  }

  /** A script leaves a common last character alone. */
  lemma {:induction false} TurnsBefore(script: seq<Edit>, s: string, t: string, x: char)
    requires Turns(script, s, t)
    ensures Turns(script, s + [x], t + [x])
    decreases |script|
  {
    if |script| > 0 {
      ApplyBefore(script[0], s, x);
      TurnsBefore(script[1..], Apply(script[0], s), t, x);
    }
  }

  lemma {:induction false} Appends(b: string) returns (script: seq<Edit>)
    ensures |script| == |b| && Turns(script, "", b)
    decreases |b|
  {
    if |b| == 0 {
      script := [];
    } else {
      script := Appends(Init(b));
      InsertLast(script, "", b);
      script := script + [Insert(|b| - 1, Last(b))];
    }
  }

  lemma DeleteLast(a: string, b: string, rest: seq<Edit>)
    requires |a| > 0 && Turns(rest, Init(a), b)
    ensures Turns([Delete(|a| - 1)] + rest, a, b)
  {
    var script := [Delete(|a| - 1)] + rest;
    assert script[1..] == rest && Apply(Delete(|a| - 1), a) == Init(a);
  }

  lemma {:induction false} Deletes(a: string) returns (script: seq<Edit>)
    ensures |script| == |a| && Turns(script, a, "")
    decreases |a|
  {
    if |a| == 0 {
      script := [];
    } else {
      var rest := Deletes(Init(a));
      DeleteLast(a, "", rest);
      script := [Delete(|a| - 1)] + rest;
    }
  }

  lemma InsertLast(script: seq<Edit>, a: string, b: string)
    requires |b| > 0 && Turns(script, a, Init(b))
    ensures Turns(script + [Insert(|b| - 1, Last(b))], a, b)
  {
    hide Turns, Apply, Applies, Init, Last;
    Whole(b);
    ApplyAtEnd(Init(b), Last(b), Last(b));
    TurnsAppend(script, a, Init(b), Insert(|b| - 1, Last(b)));
  }

  lemma ReplaceLast(script: seq<Edit>, a: string, b: string)
    requires |a| > 0 && |b| > 0 && Turns(script, Init(a), Init(b))
    ensures Last(a) == Last(b) ==> Turns(script, a, b)
    ensures Turns(script + [Replace(|b| - 1, Last(b))], a, b)
  {
    hide Turns, Apply, Applies, Init, Last;
    Whole(a);
    Whole(b);
    TurnsBefore(script, Init(a), Init(b), Last(a));
    ApplyAtEnd(Init(b), Last(a), Last(b));
    TurnsAppend(script, a, Init(b) + [Last(a)], Replace(|b| - 1, Last(b)));
  }

  /** Some script has exactly the distance's length. */
  lemma {:induction false} ShortestScript(a: string, b: string) returns (script: seq<Edit>)
    ensures |script| == Distance(a, b) && Turns(script, a, b)
    decreases |a| + |b|
  {
    hide Turns;
    if |a| == 0 {
      script := Appends(b);
    } else if |b| == 0 {
      script := Deletes(a);
    } else if Distance(a, b) == Distance(a, Init(b)) + 1 {
      script := ShortestScript(a, Init(b));
      InsertLast(script, a, b);
      script := script + [Insert(|b| - 1, Last(b))];
    } else if Distance(a, b) == Distance(Init(a), b) + 1 {
      script := ShortestScript(Init(a), b);
      DeleteLast(a, b, script);
      script := [Delete(|a| - 1)] + script;
    } else {
      script := ShortestScript(Init(a), Init(b));
      ReplaceLast(script, a, b);
      if Last(a) != Last(b) {
        script := script + [Replace(|b| - 1, Last(b))];
      }
    }
  }

  /** The table computes the length of the shortest edit script. */
  lemma DistanceIsLeast(a: string, b: string)
    ensures exists script: seq<Edit> :: Turns(script, a, b) && |script| == Distance(a, b)
    ensures forall script: seq<Edit> :: Turns(script, a, b) ==> |script| >= Distance(a, b)
  {
    var shortest := ShortestScript(a, b);
    forall script: seq<Edit> | Turns(script, a, b) ensures |script| >= Distance(a, b) {
      NoShorterScript(script, a, b);
    }
  }

  // ---------------------------------------------------------------- the hint

  function Trimmed(s: string): string
  {
    if |s| > 0 && s[0] == '-' then Trimmed(s[1..]) else s
  }

  /** suggestSubcommand: the first of the nearest known commands, if one is within two edits. */
  method Suggest(typed: string, known: seq<string>) returns (best: Option<nat>)
    ensures best.None? <==> forall i :: 0 <= i < |known| ==> Distance(Trimmed(typed), known[i]) > 2
    ensures best.Some? ==>
              && best.value < |known| && Distance(Trimmed(typed), known[best.value]) <= 2
              && (forall i :: 0 <= i < |known| ==>
                    Distance(Trimmed(typed), known[best.value]) <= Distance(Trimmed(typed), known[i]))
              && (forall i :: 0 <= i < best.value ==>
                    Distance(Trimmed(typed), known[best.value]) < Distance(Trimmed(typed), known[i]))
  {
    hide Distance;
    var t, bestDist := Trimmed(typed), 3;
    best := None;
    for i := 0 to |known|
      invariant best.None? ==> bestDist == 3
      invariant best.Some? ==> best.value < i && bestDist == Distance(t, known[best.value]) <= 2
      invariant forall k :: 0 <= k < i ==> bestDist <= Distance(t, known[k])
      invariant best.Some? ==> forall k :: 0 <= k < best.value ==> bestDist < Distance(t, known[k])
    {
      var d := Levenshtein(t, known[i]);
      if d < bestDist {
        best, bestDist := Some(i), d;
      }
    }
  }
}
