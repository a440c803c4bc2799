/**
 Ownership path patterns: cleaning, and when two patterns share a path.
 */
module GraphPaths {

  const SUBTREE: string := "/**"

  // Text helpers

  predicate HasSuffix(s: string, suffix: string) {
    |s| >= |suffix| && s[|s| - |suffix|..] == suffix
  }

  function TrimSuffix(s: string, suffix: string): string {
    if HasSuffix(s, suffix) then s[..|s| - |suffix|] else s
  }

  predicate HasParentDots(s: string) {
    exists i :: 0 <= i < |s| - 1 && s[i] == '.' && s[i + 1] == '.'
  }

  // Cleaning

  /** The parts between slashes, empty ones included. */
  function Split(s: string): (parts: seq<string>)
    ensures |parts| > 0
    ensures forall p | p in parts :: '/' !in p
  {
    if s == "" then [""]
    else
      var rest := Split(s[1..]);
      if s[0] == '/' then [""] + rest
      else [[s[0]] + rest[0]] + rest[1..]
  }

  function Join(parts: seq<string>): string
    requires parts != []
  {
    if |parts| == 1 then parts[0] else parts[0] + "/" + Join(parts[1..])
  }

  predicate Proper(part: string) { part != "" && part != "." }

  function Keep(parts: seq<string>): (kept: seq<string>)
    ensures forall p | p in kept :: p in parts && Proper(p)
  {
    if parts == [] then []
    else if Proper(parts[0]) then [parts[0]] + Keep(parts[1..])
    else Keep(parts[1..])
  }

  /** Lexical cleaning of an unrooted path without parent references. */
  function CleanPath(s: string): string {
    var kept := Keep(Split(s));
    if kept == [] then "." else Join(kept)
  }

  function TrimPrefix(s: string, prefix: string): string {
    if prefix <= s then s[|prefix|..] else s
  }

  function CleanOwnership(value: string): string {
    if '\\' in value || "/" <= value || HasParentDots(value) then ""
    else TrimPrefix(CleanPath(value), "./")
  }

  // Patterns

  function PatternsOverlap(first: string, second: string): bool {
    var f, s := CleanOwnership(first), CleanOwnership(second);
    if f == "" || s == "" then false
    else if f == s then true
    else
      var fp, sp := TrimSuffix(f, SUBTREE), TrimSuffix(s, SUBTREE);
      if HasSuffix(f, SUBTREE) && (s == fp || fp + "/" <= s) then true
      else if HasSuffix(s, SUBTREE) && (f == sp || sp + "/" <= f) then true
      else false
  }

  // A literal names itself; a pattern ending in SUBTREE names its prefix and everything below it.
  predicate Denotes(pattern: string, path: string) {
    if HasSuffix(pattern, SUBTREE) then
      var p := TrimSuffix(pattern, SUBTREE);
      path == p || p + "/" <= path
    else path == pattern
  }

  predicate Clean(s: string) { s != "" && CleanOwnership(s) == s }

  // Splitting and joining

  lemma {:induction false} SplitPart(p: string)
    requires '/' !in p
    ensures Split(p) == [p]
  {
    if p != "" {
      SplitPart(p[1..]);
      assert [p[0]] + p[1..] == p;
    }
  }

  lemma {:induction false} SplitAtSlash(a: string, b: string)
    requires '/' !in a
    ensures Split(a + "/" + b) == [a] + Split(b)
  {
    var s := a + "/" + b;
    if a == "" {
      assert s == "/" + b && s[1..] == b;
    } else {
      assert s[1..] == a[1..] + "/" + b;
      SplitAtSlash(a[1..], b);
      assert [a[0]] + a[1..] == a;
    }
  }

  /** Joining and splitting undo one another. */
  lemma {:induction false} SplitJoin(parts: seq<string>)
    requires parts != [] && forall p | p in parts :: '/' !in p
    ensures Split(Join(parts)) == parts
  {
    if |parts| == 1 {
      SplitPart(parts[0]);
    } else {
      SplitJoin(parts[1..]);
      SplitAtSlash(parts[0], Join(parts[1..]));
    }
  }

  lemma {:induction false} JoinSplit(s: string)
    ensures Join(Split(s)) == s
  {
    if s != "" {
      var rest := Split(s[1..]);
      JoinSplit(s[1..]);
      if s[0] == '/' {
        assert ([""] + rest)[1..] == rest;
      } else {
        var parts := [[s[0]] + rest[0]] + rest[1..];
        if |rest| > 1 {
          assert parts[1..] == rest[1..];
        }
      }
      assert [s[0]] + s[1..] == s;
    }
  }

  lemma {:induction false} KeepProper(parts: seq<string>)
    requires forall p | p in parts :: Proper(p)
    ensures Keep(parts) == parts
  {
    if parts != [] {
      KeepProper(parts[1..]);
    }
  }

  lemma {:induction false} JoinStarts(parts: seq<string>)
    requires parts != []
    ensures parts[0] <= Join(parts)
    ensures Join(parts) == "" ==> parts == [""]
    ensures Join(parts) == parts[0] || parts[0] + "/" <= Join(parts)
  {
  }

  lemma KeptNeverDotted(parts: seq<string>)
    requires parts != [] && forall p | p in parts :: Proper(p) && '/' !in p
    ensures !("./" <= Join(parts)) && Join(parts) != "" && !("/" <= Join(parts))
  {
    JoinStarts(parts);
    var p := parts[0];
    assert Proper(p) && '/' !in p && Join(parts)[0] == p[0];
    assert |p| > 1 ==> Join(parts)[1] == p[1] && p[1] in p;
  }

  /** A path is its own cleaning exactly when it is "." or has only proper parts. */
  lemma CleanPathFixed(s: string)
    ensures CleanPath(s) == s <==> s == "." || forall p | p in Split(s) :: Proper(p)
    ensures !("./" <= CleanPath(s)) && CleanPath(s) != ""
  {
    var parts := Split(s);
    var kept := Keep(parts);
    if kept != [] {
      KeptNeverDotted(kept);
      SplitJoin(kept);
    }
    SplitPart(".");
    if forall p | p in parts :: Proper(p) {
      KeepProper(parts);
      JoinSplit(s);
    }
  }

  lemma CleanOwnershipIs(s: string)
    ensures CleanOwnership(s) == (if '\\' in s || "/" <= s || HasParentDots(s) then "" else CleanPath(s))
  {
    CleanPathFixed(s);
  }

  lemma CleanHasParts(s: string)
    requires Clean(s) && s != "."
    ensures Plain(s) && forall part | part in Split(s) :: Proper(part)
  {
    hide HasParentDots, Split, Join, Keep, TrimPrefix;
    CleanOwnershipIs(s);
    SplitJoin(Keep(Split(s)));
  }

  lemma PartsAreClean(s: string)
    requires Plain(s) && forall part | part in Split(s) :: Proper(part)
    ensures Clean(s)
  {
    CleanOwnershipIs(s);
    StartsEmpty(s);
    hide HasParentDots, Split, Join, Keep, TrimPrefix, CleanOwnership;
    KeepProper(Split(s));
    JoinSplit(s);
    assert Split(s)[0] in Split(s);
  }

  lemma StartsEmpty(s: string)
    ensures s == "" || "/" <= s ==> Split(s)[0] == ""
  {
  }

  /** Clean texts are the dot, and parts joined by single slashes, none empty or a dot, without backslashes or double dots. */
  lemma CleanIff(s: string)
    ensures Clean(s) <==>
            || s == "."
            || (&& '\\' !in s && (forall i | 0 <= i < |s| - 1 :: s[i] != '.' || s[i + 1] != '.')
                && forall part | part in Split(s) :: part != "" && part != ".")
  {
    hide Split, CleanOwnership, Plain;
    PlainIff(s);
    if s == "." {
      DotIsClean(s);
    } else if Clean(s) {
      CleanHasParts(s);
    } else if Plain(s) && forall part | part in Split(s) :: Proper(part) {
      PartsAreClean(s);
    }
  }

  lemma PlainIff(s: string)
    ensures Plain(s) <==> '\\' !in s && forall i | 0 <= i < |s| - 1 :: s[i] != '.' || s[i + 1] != '.'
  {
  }

  lemma DotIsClean(s: string)
    requires s == "."
    ensures Clean(s)
  {
    CleanOwnershipIs(s);
    SplitPart(s);
    assert Keep([s]) == [];
  }

  // Cleaning is idempotent

  lemma {:induction false} SplitAppend(a: string, b: string)
    ensures Split(a + "/" + b) == Split(a) + Split(b)
  {
    var s := a + "/" + b;
    if a == "" {
      assert s == "/" + b && s[1..] == b;
    } else {
      assert s[1..] == a[1..] + "/" + b;
      SplitAppend(a[1..], b);
    }
  }

  /** Neither a backslash nor a pair of dots. */
  predicate Plain(s: string) { '\\' !in s && !HasParentDots(s) }

  lemma PlainTail(s: string)
    requires Plain(s) && s != ""
    ensures Plain(s[1..])
  {
    forall i | 0 <= i < |s[1..]| - 1 ensures !(s[1..][i] == '.' && s[1..][i + 1] == '.') {
      assert s[1..][i] == s[i + 1] && s[1..][i + 1] == s[i + 2];
    }
  }

  lemma PlainPrefix(s: string, p: string)
    requires Plain(s) && p <= s
    ensures Plain(p)
  {
    forall i | 0 <= i < |p| - 1 ensures !(p[i] == '.' && p[i + 1] == '.') {
      assert p[i] == s[i] && p[i + 1] == s[i + 1];
    }
  }

  lemma {:induction false} SplitPlain(s: string)
    requires Plain(s)
    ensures forall p | p in Split(s) :: Plain(p)
    ensures s != "" && s[0] != '/' ==> Split(s)[0] != "" && Split(s)[0][0] == s[0]
  {
    if s != "" {
      PlainTail(s);
      SplitPlain(s[1..]);
      if s[0] != '/' {
        FirstPart(s);
        PlainPrefix(s, Split(s)[0]);
      }
    }
  }

  lemma {:induction false} FirstPart(s: string)
    ensures Split(s)[0] <= s
  {
    if s != "" && s[0] != '/' {
      FirstPart(s[1..]);
      assert [s[0]] + s[1..] == s;
    }
  }

  lemma {:induction false} JoinPlain(parts: seq<string>)
    requires parts != [] && forall p | p in parts :: Plain(p)
    ensures Plain(Join(parts))
  {
    if |parts| > 1 {
      var rest := Join(parts[1..]);
      JoinPlain(parts[1..]);
      assert Plain(parts[0]);
      var p, s := parts[0], Join(parts);
      assert s == p + "/" + rest;
      forall i | 0 <= i < |s| - 1 ensures !(s[i] == '.' && s[i + 1] == '.') {
        if i + 1 < |p| {
          assert s[i] == p[i] && s[i + 1] == p[i + 1];
        } else if i > |p| {
          assert s[i] == rest[i - |p| - 1] && s[i + 1] == rest[i - |p|];
        }
      }
    }
  }

  /** What cleaning returns, unless it refuses, is clean. */
  lemma CleaningIsClean(value: string)
    requires CleanOwnership(value) != ""
    ensures Clean(CleanOwnership(value))
  {
    CleanOwnershipIs(value);
    var kept := Keep(Split(value));
    if kept == [] {
      SplitPart(".");
      CleanOwnershipIs(".");
    } else {
      SplitPlain(value);
      JoinPlain(kept);
      KeptNeverDotted(kept);
      SplitJoin(kept);
      CleanPathFixed(Join(kept));
      CleanOwnershipIs(Join(kept));
    }
  }

  lemma TrimKeepsClean(p: string)
    requires Clean(p) && HasSuffix(p, SUBTREE)
    ensures Clean(TrimSuffix(p, SUBTREE)) && TrimSuffix(p, SUBTREE) != "."
  {
    var q := TrimSuffix(p, SUBTREE);
    SplitPart(".");
    assert p == q + "/" + "**";
    CleanOwnershipIs(p);
    CleanPathFixed(p);
    SplitAppend(q, "**");
    forall x | x in Split(q) ensures Proper(x) {
      assert x in Split(p);
    }
    CleanPathFixed(q);
    CleanOwnershipIs(q);
    assert q != "" && q[0] == p[0];
    PlainPrefix(p, q);
  }

  lemma BelowIsClean(p: string)
    requires Clean(p) && p != "."
    ensures Clean(p + "/" + "x")
  {
    var q := p + "/" + "x";
    CleanOwnershipIs(p);
    CleanPathFixed(p);
    SplitAppend(p, "x");
    SplitPart("x");
    forall part | part in Split(q) ensures Proper(part) {
      assert part in Split(p) || part == "x";
    }
    PlainBelow(p);
    assert q[0] == p[0];
    CleanPathFixed(q);
    CleanOwnershipIs(q);
  }

  lemma PlainBelow(p: string)
    requires Plain(p)
    ensures Plain(p + "/" + "x")
  {
    var q := p + "/" + "x";
    forall i | 0 <= i < |q| - 1 ensures !(q[i] == '.' && q[i + 1] == '.') {
      if i + 1 < |p| {
        assert q[i] == p[i] && q[i + 1] == p[i + 1];
      }
    }
  }

  // Overlap

  /** A clean path that is not itself written as a subtree pattern. */
  predicate Concrete(path: string) { Clean(path) && !HasSuffix(path, SUBTREE) }

  predicate Nested(p: string, q: string) { p == q || p + "/" <= q || q + "/" <= p }

  /** Two paths below which a third lies are nested. */
  lemma PrefixesNest(p: string, q: string, x: string)
    requires x == p || p + "/" <= x
    requires x == q || q + "/" <= x
    ensures Nested(p, q)
  {
    if |p| == |q| {
      assert p == x[..|p|] == q;
    } else if |p| < |q| {
      assert p + "/" == x[..|p| + 1] == q[..|p| + 1];
    } else {
      assert q + "/" == x[..|q| + 1] == p[..|q| + 1];
    }
  }

  /** A subtree pattern that names p or something below it has a prefix nested with p. */
  lemma BelowNests(p: string, s: string)
    requires HasSuffix(s, SUBTREE) && (s == p || p + "/" <= s)
    ensures Nested(p, TrimSuffix(s, SUBTREE))
  {
    var sp := TrimSuffix(s, SUBTREE);
    assert s == sp + SUBTREE && sp + "/" <= s;
    PrefixesNest(p, sp, s);
  }

  lemma SubtreesOverlapIff(f: string, s: string)
    requires Clean(f) && Clean(s) && HasSuffix(f, SUBTREE) && HasSuffix(s, SUBTREE)
    ensures PatternsOverlap(f, s) <==> Nested(TrimSuffix(f, SUBTREE), TrimSuffix(s, SUBTREE))
  {
    hide CleanOwnership;
    var fp, sp := TrimSuffix(f, SUBTREE), TrimSuffix(s, SUBTREE);
    assert f == fp + SUBTREE && s == sp + SUBTREE;
    if PatternsOverlap(f, s) && f != s {
      if s == fp || fp + "/" <= s {
        BelowNests(fp, s);
      } else {
        BelowNests(sp, f);
      }
    }
  }

  lemma DeeperIsShared(f: string, s: string)
    requires Clean(f) && Clean(s) && HasSuffix(f, SUBTREE) && HasSuffix(s, SUBTREE)
    requires Nested(TrimSuffix(f, SUBTREE), TrimSuffix(s, SUBTREE))
    ensures exists x :: Concrete(x) && Denotes(f, x) && Denotes(s, x)
  {
    hide CleanOwnership;
    var fp, sp := TrimSuffix(f, SUBTREE), TrimSuffix(s, SUBTREE);
    var deeper := if |fp| < |sp| then sp else fp;
    assert Clean(deeper) && deeper != "." by {
      TrimKeepsClean(f);
      TrimKeepsClean(s);
    }
    BelowIsClean(deeper);
    var x := deeper + "/" + "x";
    assert x[|x| - 1] == 'x';
    assert Concrete(x) && Denotes(f, x) && Denotes(s, x);
  }

  /** On clean patterns the overlap test is true exactly when some concrete path belongs to both. */
  lemma CleanOverlapIffShared(f: string, s: string)
    requires Clean(f) && Clean(s)
    ensures PatternsOverlap(f, s) <==> exists x :: Concrete(x) && Denotes(f, x) && Denotes(s, x)
  {
    hide CleanOwnership;
    var fp, sp := TrimSuffix(f, SUBTREE), TrimSuffix(s, SUBTREE);
    if HasSuffix(f, SUBTREE) && HasSuffix(s, SUBTREE) {
      SubtreesOverlapIff(f, s);
      if Nested(fp, sp) {
        DeeperIsShared(f, s);
      } else {
        forall x | Denotes(f, x) && Denotes(s, x) ensures false {
          PrefixesNest(fp, sp, x);
        }
      }
    } else if HasSuffix(f, SUBTREE) {
      assert Concrete(s) && Denotes(s, s);
    } else {
      assert Concrete(f) && Denotes(f, f);
    }
  }

  /** For any two pattern texts: they overlap exactly when both can be cleaned and a concrete path belongs to both. */
  lemma OverlapIffShared(first: string, second: string)
    ensures PatternsOverlap(first, second) <==>
            exists x :: Concrete(x) && Denotes(CleanOwnership(first), x) && Denotes(CleanOwnership(second), x)
  {
    hide CleanPath;
    var f, s := CleanOwnership(first), CleanOwnership(second);
    if f != "" && s != "" {
      CleaningIsClean(first);
      CleaningIsClean(second);
      CleanOverlapIffShared(f, s);
    } else {
      NothingEmpty();
    }
  }

  lemma NothingEmpty()
    ensures forall x :: Denotes("", x) ==> !Concrete(x)
  {
  }
}
