/**
 * The attributes of the 3D skills graph (src/components/NeuralSkills.tsx):
 * one node per skill of the resume, coloured by its category, sized by a
 * category/name rule, and linked to its neighbours in list order. Node
 * positions on the sphere use trigonometry and are not part of this model.
 */
module NeuralSkills {
  import opened Wrappers

  datatype SkillCategory = SkillCategory(category: string, items: seq<string>)

  /** The skill categories of the resume document, in order. */
  const Skills: seq<SkillCategory> := [
    SkillCategory("Programming", ["Python", "JavaScript", "TypeScript", "Solidity", "SQL", "C", "MATLAB", "Simulink",
                                  "Verilog", "React.js", "Node.js", "HTML/CSS"]),
    SkillCategory("Data & Analytics", ["Dune Analytics", "The Graph", "Subsquid", "On-chain Explorers"]),
    SkillCategory("DevOps", ["Docker", "Kubernetes", "Argo CD", "MongoDB", "CI/CD Pipelines"]),
    SkillCategory("Tools & Hardware", ["Ganache", "Truffle", "Arduino", "TinkerCAD", "SimAVR", "Diptrace"]),
    SkillCategory("Languages", ["French (Native)", "English (Fluent)", "Hebrew (Fluent)", "Spanish (Intermediate)"])
  ]

  /** Name fragments that make a skill node large. */
  const HeadlineNames: seq<string> := ["Python", "Solidity", "JavaScript", "TypeScript", "Kubernetes"]

  const DefaultColor: string := "#cbd5e1"

  /** Concatenation of a list of lists, in order. */
  function Flatten<T>(xss: seq<seq<T>>): seq<T>
  {
    if xss == [] then [] else xss[0] + Flatten(xss[1..])
  }

  /** The item lists of the categories, in order. */
  function ItemLists(cats: seq<SkillCategory>): (r: seq<seq<string>>)
    ensures |r| == |cats| && forall k :: 0 <= k < |cats| ==> r[k] == cats[k].items
  {
    seq(|cats|, k requires 0 <= k < |cats| => cats[k].items)
  }

  /** `flatMap(c => c.items)`: every category's items, in category order. */
  function AllSkills(cats: seq<SkillCategory>): seq<string>
  {
    Flatten(ItemLists(cats))
  }

  /** An element is flattened iff one of the lists holds it. */
  lemma {:induction false} FlattenMembership<T>(xss: seq<seq<T>>, x: T)
    ensures x in Flatten(xss) <==> exists k :: 0 <= k < |xss| && x in xss[k]
  {
    if xss != [] {
      FlattenMembership(xss[1..], x);
      if x in Flatten(xss[1..]) {
        var k :| 0 <= k < |xss[1..]| && x in xss[1..][k];
        assert x in xss[k + 1];
      }
      if k :| 1 <= k < |xss| && x in xss[k] {
        assert x in xss[1..][k - 1];
      }
    }
  }

  /** A skill is flattened iff some category lists it. */
  lemma AllSkillsMembership(cats: seq<SkillCategory>, skill: string)
    ensures skill in AllSkills(cats) <==> exists k :: 0 <= k < |cats| && skill in cats[k].items
  {
    FlattenMembership(ItemLists(cats), skill);
  }

  lemma ConcatAssoc<T>(x: seq<T>, y: seq<T>, z: seq<T>)
    ensures x + (y + z) == (x + y) + z
  {
  }

  lemma FlattenCons<T>(xss: seq<seq<T>>)
    requires xss != []
    ensures Flatten(xss) == xss[0] + Flatten(xss[1..])
  {
  }

  /** Flattening distributes over concatenation. */
  lemma {:induction false} FlattenAppend<T>(a: seq<seq<T>>, b: seq<seq<T>>)
    ensures Flatten(a + b) == Flatten(a) + Flatten(b)
  {
    if a == [] {
      assert a + b == b;
    } else {
      var ab := a + b;
      FlattenAppend(a[1..], b);
      assert ab[0] == a[0];
      assert ab[1..] == a[1..] + b;
      FlattenCons(ab);
      FlattenCons(a);
      ConcatAssoc(a[0], Flatten(a[1..]), Flatten(b));
    }
  }

  lemma SplitAround<T>(s: seq<T>, k: nat)
    requires k < |s|
    ensures s == s[..k] + [s[k]] + s[k + 1..]
  {
    assert s == s[..k] + s[k..];
    assert s[k..] == [s[k]] + s[k + 1..];
  }

  lemma FlattenSingleton<T>(x: seq<T>)
    ensures Flatten([x]) == x
  {
    assert [x][1..] == [];
  }

  /** The flattening keeps each list as one contiguous block, after all earlier lists and before all later ones. */
  lemma FlattenBlocks<T>(xss: seq<seq<T>>, k: nat)
    requires k < |xss|
    ensures Flatten(xss) == Flatten(xss[..k]) + xss[k] + Flatten(xss[k + 1..])
  {
    var before, x, after := xss[..k], xss[k], xss[k + 1..];
    SplitAround(xss, k);
    FlattenAppend(before + [x], after);
    FlattenAppend(before, [x]);
    FlattenSingleton(x);
  }

  /** `find` on the categories: the name of the first category listing the skill, if any. */
  function CategoryOf(cats: seq<SkillCategory>, skill: string): (r: Option<string>)
    ensures r.None? <==> forall k :: 0 <= k < |cats| ==> skill !in cats[k].items
    ensures r.Some? ==> exists k :: 0 <= k < |cats| && cats[k].category == r.value && skill in cats[k].items &&
                                    forall j :: 0 <= j < k ==> skill !in cats[j].items
  {
    if cats == [] then None
    else if skill in cats[0].items then Some(cats[0].category)
    else
      var r := CategoryOf(cats[1..], skill);
      assert forall k :: 1 <= k < |cats| ==> cats[k] == cats[1..][k - 1];
      r
  }

  /** Every flattened skill has a category. */
  lemma CategoryDefined(cats: seq<SkillCategory>, skill: string)
    requires skill in AllSkills(cats)
    ensures CategoryOf(cats, skill).Some?
  {
    AllSkillsMembership(cats, skill);
  }

  /** `needle` occurs in `hay` starting at position i. */
  predicate OccursAt(hay: string, needle: string, i: int)
  {
    0 <= i <= |hay| - |needle| && hay[i..i + |needle|] == needle
  }

  /** `String.prototype.includes`: `needle` occurs somewhere in `hay`. */
  function Contains(hay: string, needle: string): (r: bool)
    ensures r <==> exists i :: OccursAt(hay, needle, i)
    decreases |hay|
  {
    if |hay| < |needle| then false
    else if hay[..|needle|] == needle then
      assert OccursAt(hay, needle, 0);
      true
    else
      var r := Contains(hay[1..], needle);
      assert !OccursAt(hay, needle, 0);
      forall i | 1 <= i
        ensures OccursAt(hay, needle, i) <==> OccursAt(hay[1..], needle, i - 1)
      {
        if i <= |hay| - |needle| {
          var here, there := hay[i..i + |needle|], hay[1..][i - 1..i - 1 + |needle|];
          forall k | 0 <= k < |needle| ensures here[k] == there[k] {
            assert hay[1..][i - 1 + k] == hay[i + k];
          }
          assert here == there;
        }
      }
      assert (exists i :: OccursAt(hay[1..], needle, i)) ==> exists i :: OccursAt(hay, needle, i) by {
        if exists i :: OccursAt(hay[1..], needle, i) {
          var i :| OccursAt(hay[1..], needle, i);
          assert OccursAt(hay, needle, i + 1);
        }
      }
      r
  }

  /** `some(s => skill.includes(s))` over the headline names. */
  predicate HasHeadlineName(skill: string)
  {
    exists k :: 0 <= k < |HeadlineNames| && Contains(skill, HeadlineNames[k])
  }

  /** The radius of a node: fixed by the rule, or the randomised default 0.15 + random * 0.15. */
  datatype NodeSize = Fixed(radius: real) | RandomDefault

  function SizeRule(category: Option<string>, skill: string): NodeSize
  {
    if category == Some("Tools & Hardware") || category == Some("Languages") then Fixed(0.1)
    else if HasHeadlineName(skill) then Fixed(0.4)
    else RandomDefault
  }

  /** Small nodes are exactly the two minor categories, whatever the name; large nodes need a headline name. */
  lemma SizeRuleMeaning(category: Option<string>, skill: string)
    ensures SizeRule(category, skill) == Fixed(0.1) <==> category in {Some("Tools & Hardware"), Some("Languages")}
    ensures SizeRule(category, skill) == Fixed(0.4) <==>
      category !in {Some("Tools & Hardware"), Some("Languages")} && HasHeadlineName(skill)
  {
  }

  /** The node colour of a category; unknown or missing categories are grey. */
  function GetColor(category: Option<string>): string
  {
    match category
    case Some("Programming") => "#4f46e5"
    case Some("Data & Analytics") => "#0ea5e9"
    case Some("DevOps") => "#f59e0b"
    case Some("Tools & Hardware") => "#64748b"
    case Some("Languages") => "#ec4899"
    case _ => DefaultColor
  }

  predicate KnownCategory(name: string)
  {
    name in {"Programming", "Data & Analytics", "DevOps", "Tools & Hardware", "Languages"}
  }

  /** Known categories get five distinct non-grey colours; everything else is grey. */
  lemma GetColorMeaning(category: Option<string>)
    ensures GetColor(category) != DefaultColor <==> category.Some? && KnownCategory(category.value)
    ensures forall a, b :: KnownCategory(a) && KnownCategory(b) && a != b ==> GetColor(Some(a)) != GetColor(Some(b))
  {
  }

  /** One node of the graph, without its position. */
  datatype SkillNode = SkillNode(name: string, category: Option<string>, size: NodeSize)

  function NodeOf(cats: seq<SkillCategory>, skill: string): SkillNode
  {
    var category := CategoryOf(cats, skill);
    SkillNode(skill, category, SizeRule(category, skill))
  }

  /** The `skills` list: one node per flattened skill, in order. */
  function Nodes(cats: seq<SkillCategory>): (r: seq<SkillNode>)
    ensures |r| == |AllSkills(cats)|
    ensures forall i :: 0 <= i < |r| ==> r[i] == NodeOf(cats, AllSkills(cats)[i])
  {
    var all := AllSkills(cats);
    seq(|all|, i requires 0 <= i < |all| => NodeOf(cats, all[i]))
  }

  /** When every category name is known, every node has a category, hence a colour from the palette. */
  lemma NodeColoured(cats: seq<SkillCategory>, i: int)
    requires forall k :: 0 <= k < |cats| ==> KnownCategory(cats[k].category)
    requires 0 <= i < |Nodes(cats)|
    ensures Nodes(cats)[i].category.Some?
    ensures KnownCategory(Nodes(cats)[i].category.value)
    ensures GetColor(Nodes(cats)[i].category) != DefaultColor
  {
    var skill := AllSkills(cats)[i];
    CategoryDefined(cats, skill);
    var c := CategoryOf(cats, skill);
    GetColorMeaning(c);
  }

  /** The resume's five categories are exactly the palette's. */
  lemma SkillsCategoriesKnown()
    ensures forall k :: 0 <= k < |Skills| ==> KnownCategory(Skills[k].category)
  {
  }

  /** On the resume's data every node is coloured from the palette. */
  lemma EveryNodeColoured(i: int)
    requires 0 <= i < |Nodes(Skills)|
    ensures GetColor(Nodes(Skills)[i].category) != DefaultColor
  {
    SkillsCategoriesKnown();
    NodeColoured(Skills, i);
  }

  function Abs(x: int): int { if x < 0 then -x else x }

  /** `filter((_, idx) => |idx - i| < 2)` over the indices 0 .. n-1. */
  function Neighbours(n: nat, i: int): (r: seq<int>)
    ensures forall j :: j in r <==> 0 <= j < n && Abs(j - i) < 2
    ensures forall a, b :: 0 <= a < b < |r| ==> r[a] < r[b]
    ensures |r| <= n
  {
    if n == 0 then []
    else
      var rest := Neighbours(n - 1, i);
      assert forall a :: 0 <= a < |rest| ==> rest[a] in rest;
      if Abs(n - 1 - i) < 2 then rest + [n - 1] else rest
  }

  /** Consecutive integers from lo up to, not including, hi. */
  function Interval(lo: int, hi: int): seq<int>
    decreases hi - lo
  {
    if hi <= lo then [] else [lo] + Interval(lo + 1, hi)
  }

  function Max(a: int, b: int): int { if a >= b then a else b }
  function Min(a: int, b: int): int { if a <= b then a else b }

  lemma {:induction false} IntervalSnoc(lo: int, hi: int)
    requires lo <= hi
    ensures Interval(lo, hi + 1) == Interval(lo, hi) + [hi]
    decreases hi - lo
  {
    if lo < hi {
      IntervalSnoc(lo + 1, hi);
    }
  }

  /** Node i links to itself and to the nodes just before and after it that exist. */
  lemma {:induction false} NeighboursAreWindow(n: nat, i: int)
    ensures Neighbours(n, i) == Interval(Max(0, i - 1), Min(n, i + 2))
  {
    if n > 0 {
      NeighboursAreWindow(n - 1, i);
      if Abs(n - 1 - i) < 2 {
        IntervalSnoc(Max(0, i - 1), n - 1);
      }
    }
  }

  /** Node i has two links at either end of a list of at least two nodes, three in the middle. */
  lemma NeighbourCount(n: nat, i: int)
    requires 2 <= n && 0 <= i < n
    ensures |Neighbours(n, i)| == if i == 0 || i == n - 1 then 2 else 3
    ensures i in Neighbours(n, i)
  {
    NeighboursAreWindow(n, i);
    IntervalLength(Max(0, i - 1), Min(n, i + 2));
  }

  lemma {:induction false} IntervalLength(lo: int, hi: int)
    ensures |Interval(lo, hi)| == if hi <= lo then 0 else hi - lo
    decreases hi - lo
  {
    if lo < hi {
      IntervalLength(lo + 1, hi);
    }
  }

  /** Links are symmetric: j is a neighbour of i exactly when i is a neighbour of j. */
  lemma NeighboursSymmetric(n: nat, i: nat, j: nat)
    ensures j in Neighbours(n, i) && i < n <==> i in Neighbours(n, j) && j < n
  {
  }
}
