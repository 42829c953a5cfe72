/** RegularExpressionSelectionCriteria as its test pins it down: a node is
    selected when its kind is one the criteria match, no global exclude
    pattern matches its fully qualified name, and some global include
    pattern does.  Patterns are reduced to the two forms the test uses. */
module Selection {

  /** The nodes of the dependency graph, by fully qualified name. */
  datatype Node = Package(name: string) | Class(name: string) | Feature(name: string)

  /** The pattern `//`, which matches every name, and `/^s/`, which matches
      the names that start with s. */
  datatype Pattern = MatchAll | StartsWith(prefix: string)

  predicate PatternMatches(p: Pattern, name: string) {
    match p
    case MatchAll => true
    case StartsWith(prefix) => prefix <= name
  }

  /** The patterns of a list, tried in order, until one matches the name. */
  predicate AnyMatches(patterns: seq<Pattern>, name: string) {
    patterns != [] && (PatternMatches(patterns[0], name) || AnyMatches(patterns[1..], name))
  }

  /** A list matches a name exactly when one of its patterns does. */
  lemma {:induction false} AnyMatchesSome(patterns: seq<Pattern>, name: string)
    ensures AnyMatches(patterns, name) <==> exists p <- patterns :: PatternMatches(p, name)
  {
    if patterns != [] {
      AnyMatchesSome(patterns[1..], name);
      if exists p <- patterns :: PatternMatches(p, name) {
        var p :| p in patterns && PatternMatches(p, name);
        if p != patterns[0] {
          assert p in patterns[1..];
        }
      }
    }
  }

  class RegularExpressionSelectionCriteria {
    var globalIncludes: seq<Pattern>
    var globalExcludes: seq<Pattern>
    var matchingPackages: bool
    var matchingClasses: bool
    var matchingFeatures: bool

    /** Every kind matched, every name included, nothing excluded. */
    constructor ()
      ensures globalIncludes == [MatchAll] && globalExcludes == []
      ensures matchingPackages && matchingClasses && matchingFeatures
    {
      globalIncludes := [MatchAll];
      globalExcludes := [];
      matchingPackages, matchingClasses, matchingFeatures := true, true, true;
    }

    /** matches: the gate on the node's kind first, then the excludes,
        which win, then the includes.  A node matches exactly when its kind
        is enabled, no exclude pattern matches its fully qualified name, and
        some include pattern does, so a disabled kind and a matching exclude
        each reject the node whatever the includes say. */
    predicate Matches(node: Node)
      reads this
      ensures Matches(node) <==>
        && (node.Package? ==> matchingPackages)
        && (node.Class? ==> matchingClasses)
        && (node.Feature? ==> matchingFeatures)
        && (forall p <- globalExcludes :: !PatternMatches(p, node.name))
        && (exists p <- globalIncludes :: PatternMatches(p, node.name))
    {
      AnyMatchesSome(globalExcludes, node.name);
      AnyMatchesSome(globalIncludes, node.name);
      && (match node
          case Package(_) => matchingPackages
          case Class(_) => matchingClasses
          case Feature(_) => matchingFeatures)
      && !AnyMatches(globalExcludes, node.name)
      && AnyMatches(globalIncludes, node.name)
    }

    method SetGlobalIncludes(patterns: seq<Pattern>)
      modifies this
      ensures globalIncludes == patterns && globalExcludes == old(globalExcludes)
      ensures matchingPackages == old(matchingPackages) && matchingClasses == old(matchingClasses)
      ensures matchingFeatures == old(matchingFeatures)
    {
      globalIncludes := patterns;
    }

    method SetGlobalExcludes(patterns: seq<Pattern>)
      modifies this
      ensures globalExcludes == patterns && globalIncludes == old(globalIncludes)
      ensures matchingPackages == old(matchingPackages) && matchingClasses == old(matchingClasses)
      ensures matchingFeatures == old(matchingFeatures)
    {
      globalExcludes := patterns;
    }

    /** Each flag governs its own kind only. */
    method SetMatchingPackages(b: bool)
      modifies this
      ensures matchingPackages == b && matchingClasses == old(matchingClasses)
      ensures matchingFeatures == old(matchingFeatures)
      ensures globalIncludes == old(globalIncludes) && globalExcludes == old(globalExcludes)
      ensures forall node: Node :: !node.Package? ==> Matches(node) == old(Matches(node))
    {
      matchingPackages := b;
    }

    method SetMatchingClasses(b: bool)
      modifies this
      ensures matchingClasses == b && matchingPackages == old(matchingPackages)
      ensures matchingFeatures == old(matchingFeatures)
      ensures globalIncludes == old(globalIncludes) && globalExcludes == old(globalExcludes)
      ensures forall node: Node :: !node.Class? ==> Matches(node) == old(Matches(node))
    {
      matchingClasses := b;
    }

    method SetMatchingFeatures(b: bool)
      modifies this
      ensures matchingFeatures == b && matchingPackages == old(matchingPackages)
      ensures matchingClasses == old(matchingClasses)
      ensures globalIncludes == old(globalIncludes) && globalExcludes == old(globalExcludes)
      ensures forall node: Node :: !node.Feature? ==> Matches(node) == old(Matches(node))
    {
      matchingFeatures := b;
    }
  }

  /** `//` selects every name, and `/^x/` exactly the names whose first
      character is x, so the whole qualified name is what is tested. */
  lemma {:induction false} PatternForms(x: char, name: string)
    ensures AnyMatches([MatchAll], name)
    ensures AnyMatches([StartsWith([x])], name) <==> |name| > 0 && name[0] == x
    ensures !AnyMatches([], name)
  {
    assert [MatchAll][1..] == [];
    assert [StartsWith([x])][1..] == [];
    if |name| > 0 && name[0] == x {
      assert name[..1] == [x];
    }
  }

  // The nine nodes the test builds.
  const A: Node := Package("a")
  const A_A: Node := Class("a.A")
  const A_A_A: Node := Feature("a.A.a")
  const B: Node := Package("b")
  const B_B: Node := Class("b.B")
  const B_B_B: Node := Feature("b.B.b")
  const C: Node := Package("c")
  const C_C: Node := Class("c.C")
  const C_C_C: Node := Feature("c.C.c")

  /** What the criteria answer for the nine nodes, in the test's order. */
  function Verdicts(c: RegularExpressionSelectionCriteria): seq<bool>
    reads c
  {
    [c.Matches(A), c.Matches(A_A), c.Matches(A_A_A),
     c.Matches(B), c.Matches(B_B), c.Matches(B_B_B),
     c.Matches(C), c.Matches(C_C), c.Matches(C_C_C)]
  }

  /** Select one kind only. */
  method MatchOnly(c: RegularExpressionSelectionCriteria, packages: bool, classes: bool, features: bool)
    modifies c
    ensures c.matchingPackages == packages && c.matchingClasses == classes && c.matchingFeatures == features
    ensures c.globalIncludes == old(c.globalIncludes) && c.globalExcludes == old(c.globalExcludes)
  {
    c.SetMatchingPackages(packages);
    c.SetMatchingClasses(classes);
    c.SetMatchingFeatures(features);
  }

  /** testMatch: include `//`, and each kind on its own selects exactly the
      three nodes of that kind. */
  method TestMatch() returns (packagesOnly: seq<bool>, classesOnly: seq<bool>, featuresOnly: seq<bool>)
    ensures packagesOnly == [true, false, false, true, false, false, true, false, false]
    ensures classesOnly == [false, true, false, false, true, false, false, true, false]
    ensures featuresOnly == [false, false, true, false, false, true, false, false, true]
  {
    var criteria := new RegularExpressionSelectionCriteria();
    forall name: string ensures AnyMatches([MatchAll], name) {
      PatternForms('a', name);
    }
    criteria.SetGlobalIncludes([MatchAll]);
    MatchOnly(criteria, true, false, false);
    packagesOnly := Verdicts(criteria);
    MatchOnly(criteria, false, true, false);
    classesOnly := Verdicts(criteria);
    MatchOnly(criteria, false, false, true);
    featuresOnly := Verdicts(criteria);
  }

  /** testGlobalIncludes: include `/^b/` selects only the b node of the
      enabled kind. */
  method TestGlobalIncludes() returns (packagesOnly: seq<bool>, classesOnly: seq<bool>, featuresOnly: seq<bool>)
    ensures packagesOnly == [false, false, false, true, false, false, false, false, false]
    ensures classesOnly == [false, false, false, false, true, false, false, false, false]
    ensures featuresOnly == [false, false, false, false, false, true, false, false, false]
  {
    var criteria := new RegularExpressionSelectionCriteria();
    forall name: string ensures AnyMatches([StartsWith("b")], name) <==> |name| > 0 && name[0] == 'b' {
      PatternForms('b', name);
    }
    criteria.SetGlobalIncludes([StartsWith("b")]);
    MatchOnly(criteria, true, false, false);
    packagesOnly := Verdicts(criteria);
    MatchOnly(criteria, false, true, false);
    classesOnly := Verdicts(criteria);
    MatchOnly(criteria, false, false, true);
    featuresOnly := Verdicts(criteria);
  }

  /** testGlobalExcludes: include `//` and exclude `/^c/` select the a and
      b nodes of the enabled kind and no c node. */
  method TestGlobalExcludes() returns (packagesOnly: seq<bool>, classesOnly: seq<bool>, featuresOnly: seq<bool>)
    ensures packagesOnly == [true, false, false, true, false, false, false, false, false]
    ensures classesOnly == [false, true, false, false, true, false, false, false, false]
    ensures featuresOnly == [false, false, true, false, false, true, false, false, false]
  {
    var criteria := new RegularExpressionSelectionCriteria();
    criteria.SetGlobalIncludes([MatchAll]);
    forall name: string ensures AnyMatches([StartsWith("c")], name) <==> |name| > 0 && name[0] == 'c' {
      PatternForms('c', name);
    }
    forall name: string ensures AnyMatches([MatchAll], name) {
      PatternForms('c', name);
    }
    criteria.SetGlobalExcludes([StartsWith("c")]);
    MatchOnly(criteria, true, false, false);
    packagesOnly := Verdicts(criteria);
    MatchOnly(criteria, false, true, false);
    classesOnly := Verdicts(criteria);
    MatchOnly(criteria, false, false, true);
    featuresOnly := Verdicts(criteria);
  }
}
