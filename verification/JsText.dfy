/** String operations of the worker: `trim`, and lists joined by a separator to form map keys. */
module JsText {

  /** White space as `String.prototype.trim` strips it. */
  predicate IsSpace(c: char) {
    var u := c as int;
    9 <= u <= 13 || u == 0x20 || u == 0xa0 || u == 0x1680 || 0x2000 <= u <= 0x200a
    || u in {0x2028, 0x2029, 0x202f, 0x205f, 0x3000, 0xfeff}
  }

  function Trim(s: string): (t: string)
    ensures |t| > 0 ==> !IsSpace(t[0]) && !IsSpace(t[|t| - 1])
    ensures |t| == 0 <==> forall i :: 0 <= i < |s| ==> IsSpace(s[i])
    decreases |s|
  {
    if s == [] then s
    else if IsSpace(s[0]) then Trim(s[1..])
    else if IsSpace(s[|s| - 1]) then
      assert !IsSpace(s[..|s| - 1][0]);
      Trim(s[..|s| - 1])
    else s
  }

  /** The white space of `String.prototype.trim`: 25 code points. */
  lemma SpaceCodePoints(c: char)
    ensures IsSpace(c) <==>
              c as int in {0x09, 0x0a, 0x0b, 0x0c, 0x0d, 0x20, 0xa0, 0x1680, 0x2000, 0x2001, 0x2002, 0x2003, 0x2004,
                           0x2005, 0x2006, 0x2007, 0x2008, 0x2009, 0x200a, 0x2028, 0x2029, 0x202f, 0x205f, 0x3000,
                           0xfeff}
  {
  }

  predicate AllSpace(s: string) {
    forall i :: 0 <= i < |s| ==> IsSpace(s[i])
  }

  ghost predicate SpaceOutside(s: string, i: nat, j: nat) {
    i <= j <= |s| && forall k :: 0 <= k < i || j <= k < |s| ==> IsSpace(s[k])
  }

  lemma SpaceInFront(s: string, i: nat, j: nat)
    requires s != [] && IsSpace(s[0]) && SpaceOutside(s[1..], i, j)
    ensures SpaceOutside(s, i + 1, j + 1) && s[i + 1..j + 1] == s[1..][i..j]
  {
    assert forall k :: 0 < k < |s| ==> s[k] == s[1..][k - 1];
  }

  lemma SpaceBehind(s: string, i: nat, j: nat)
    requires s != [] && IsSpace(s[|s| - 1]) && SpaceOutside(s[..|s| - 1], i, j)
    ensures SpaceOutside(s, i, j) && s[i..j] == s[..|s| - 1][i..j]
  {
    assert forall k :: 0 <= k < |s| - 1 ==> s[k] == s[..|s| - 1][k];
  }

  /** Trimming cuts white space off both ends and nothing else. */
  lemma {:induction false} TrimLaw(s: string) returns (i: nat, j: nat)
    ensures SpaceOutside(s, i, j) && Trim(s) == s[i..j]
    decreases |s|
  {
    i, j := 0, |s|;
    if s != [] && IsSpace(s[0]) {
      i, j := TrimLaw(s[1..]);
      SpaceInFront(s, i, j);
      i, j := i + 1, j + 1;
    } else if s != [] && IsSpace(s[|s| - 1]) {
      i, j := TrimLaw(s[..|s| - 1]);
      SpaceBehind(s, i, j);
    }
  }

  predicate Free(s: string, sep: char) {
    sep !in s
  }

  /** `parts.join(sep)`. */
  function Join(parts: seq<string>, sep: char): string {
    if parts == [] then ""
    else if |parts| == 1 then parts[0]
    else parts[0] + [sep] + Join(parts[1..], sep)
  }

  predicate AllFree(parts: seq<string>, sep: char) {
    forall i :: 0 <= i < |parts| ==> Free(parts[i], sep)
  }

  /** Of two cuts of one text at a separator, the longer front contains a separator. */
  lemma SeparatorInFront(a: string, b: string, x: string, y: string, sep: char)
    requires a + [sep] + b == x + [sep] + y && |a| < |x|
    ensures sep in x
  {
    var text := x + [sep] + y;
    assert (a + [sep] + b)[|a|] == sep;
    assert x[|a|] == text[|a|];
  }

  /** Cutting two texts at their first separator. */
  lemma SplitFirst(a: string, b: string, x: string, y: string, sep: char)
    requires Free(a, sep) && Free(x, sep)
    requires a + [sep] + b == x + [sep] + y
    ensures a == x && b == y
  {
    if |a| < |x| { SeparatorInFront(a, b, x, y, sep); }
    if |x| < |a| { SeparatorInFront(x, y, a, b, sep); }
    var text := a + [sep] + b;
    assert a == text[..|a|] == x;
    assert b == text[|a| + 1..] == y;
  }

  lemma SeparatorInJoin(parts: seq<string>, sep: char)
    requires |parts| > 1
    ensures sep in Join(parts, sep)
  {
    var text := parts[0] + [sep] + Join(parts[1..], sep);
    assert text[|parts[0]|] == sep;
  }

  /** Non-empty lists of separator-free parts have the same key only when they are equal. */
  lemma {:induction false} JoinInjective(p: seq<string>, q: seq<string>, sep: char)
    requires p != [] && q != [] && AllFree(p, sep) && AllFree(q, sep)
    requires Join(p, sep) == Join(q, sep)
    ensures p == q
  {
    assert Free(p[0], sep) && Free(q[0], sep);
    if |p| == 1 && |q| == 1 {
      assert p == [p[0]] && q == [q[0]];
    } else if |p| == 1 {
      SeparatorInJoin(q, sep);
    } else if |q| == 1 {
      SeparatorInJoin(p, sep);
    } else {
      SplitFirst(p[0], Join(p[1..], sep), q[0], Join(q[1..], sep), sep);
      JoinInjective(p[1..], q[1..], sep);
      assert p == [p[0]] + p[1..] && q == [q[0]] + q[1..];
    }
  }

  /** `dedupeStrings`: trimmed, without empty texts, each only where it first appears. */
  function Deduped(values: seq<string>): seq<string> {
    if values == [] then []
    else
      var front, t := Deduped(values[..|values| - 1]), Trim(values[|values| - 1]);
      if t == "" || t in front then front else front + [t]
  }

  method DedupeStrings(values: seq<string>) returns (deduped: seq<string>)
    ensures deduped == Deduped(values)
  {
    var seen: set<string> := {};
    deduped := [];
    for i := 0 to |values|
      invariant deduped == Deduped(values[..i])
      invariant forall s :: s in seen <==> s in deduped
    {
      assert values[..i + 1][..i] == values[..i];
      var t := Trim(values[i]);
      if t != "" && t !in seen {
        seen := seen + {t};
        deduped := deduped + [t];
      }
    }
    assert values[..|values|] == values;
  }

  /** Where a trimmed text first appears; the length if it does not. */
  function FirstAt(values: seq<string>, t: string): (i: nat)
    ensures i <= |values|
    ensures i < |values| ==> Trim(values[i]) == t
    ensures forall j :: 0 <= j < i ==> Trim(values[j]) != t
  {
    if values == [] || Trim(values[0]) == t then 0 else 1 + FirstAt(values[1..], t)
  }

  lemma FirstAtPrefix(values: seq<string>, t: string)
    requires values != []
    ensures var n := |values| - 1;
            FirstAt(values, t) == if FirstAt(values[..n], t) < n then FirstAt(values[..n], t)
                                  else if Trim(values[n]) == t then n else n + 1
  {
    var n := |values| - 1;
    assert forall k :: 0 <= k < n ==> values[..n][k] == values[k];
  }

  lemma {:induction false} DedupedHolds(values: seq<string>, t: string)
    ensures t in Deduped(values) <==> t != "" && FirstAt(values, t) < |values|
  {
    if values != [] {
      DedupedHolds(values[..|values| - 1], t);
      DedupedHolds(values[..|values| - 1], Trim(values[|values| - 1]));
      FirstAtPrefix(values, t);
    }
  }

  lemma {:induction false} DedupedInOrder(values: seq<string>)
    ensures var r := Deduped(values);
            forall i, j :: 0 <= i < j < |r| ==> FirstAt(values, r[i]) < FirstAt(values, r[j])
  {
    if values != [] {
      var n := |values| - 1;
      var front, r := Deduped(values[..n]), Deduped(values);
      DedupedInOrder(values[..n]);
      forall i, j | 0 <= i < j < |r| ensures FirstAt(values, r[i]) < FirstAt(values, r[j]) {
        FirstAtPrefix(values, r[i]);
        FirstAtPrefix(values, r[j]);
        assert r[i] == front[i];
        DedupedHolds(values[..n], r[i]);
        DedupedHolds(values[..n], r[j]);
      }
    }
  }

  /** Exactly the non-empty trimmed texts, each once, in the order of their first appearance. */
  lemma DedupedLaw(values: seq<string>)
    ensures var r := Deduped(values);
            && (forall t :: t in r <==> t != "" && FirstAt(values, t) < |values|)
            && (forall i, j :: 0 <= i < j < |r| ==> FirstAt(values, r[i]) < FirstAt(values, r[j]))
  {
    forall t ensures t in Deduped(values) <==> t != "" && FirstAt(values, t) < |values| {
      DedupedHolds(values, t);
    }
    DedupedInOrder(values);
  }
}
