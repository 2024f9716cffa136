/**
 * The `/projects` listing page: the projects loaded from `/api/projects`,
 * the category buttons (`'all'` and each category once, first seen first)
 * and the list shown for the selected category.
 */
module ProjectsPage {
  import opened Wrappers
  import opened Manifest
  import opened Seqs

  /** The selection that shows every project. */
  const All: string := "all"

  /** No value occurs twice. */
  predicate NoDuplicates(xs: seq<string>)
  {
    forall i, j :: 0 <= i < j < |xs| ==> xs[i] != xs[j]
  }

  /** `projects.filter(project => project.category === c)`. */
  function WithCategory(ps: seq<Project>, c: string): (r: seq<Project>)
    ensures |r| <= |ps|
    ensures forall p :: p in r ==> p in ps && p.category == c
  {
    if ps == [] then []
    else
      var init := WithCategory(ps[..|ps| - 1], c);
      var last := ps[|ps| - 1];
      assert forall p :: p in ps[..|ps| - 1] ==> p in ps;
      if last.category == c then init + [last] else init
  }

  /** The filter keeps every project of the category and nothing else. */
  lemma {:induction false} WithCategoryMembers(ps: seq<Project>, c: string)
    ensures forall p :: p in WithCategory(ps, c) <==> p in ps && p.category == c
  {
    if ps != [] {
      WithCategoryMembers(ps[..|ps| - 1], c);
      assert ps == ps[..|ps| - 1] + [ps[|ps| - 1]];
    }
  }

  /** The filter keeps each project of the category as many times as the list has it, and no other. */
  lemma {:induction false} WithCategoryCounts(ps: seq<Project>, c: string, p: Project)
    ensures multiset(WithCategory(ps, c))[p] == if p.category == c then multiset(ps)[p] else 0
  {
    if ps != [] {
      var init := ps[..|ps| - 1];
      WithCategoryCounts(init, c, p);
      assert ps == init + [ps[|ps| - 1]];
    }
  }

  /** The filter keeps the original order: filtering a concatenation concatenates the filtered parts. */
  lemma {:induction false} WithCategoryAppend(a: seq<Project>, b: seq<Project>, c: string)
    ensures WithCategory(a + b, c) == WithCategory(a, c) + WithCategory(b, c)
  {
    if b == [] {
      assert a + b == a;
    } else {
      var init := b[..|b| - 1];
      var last := b[|b| - 1];
      WithCategoryAppend(a, init, c);
      assert (a + b)[..|a + b| - 1] == a + init;
      AppendAssoc(WithCategory(a, c), WithCategory(init, c), if last.category == c then [last] else []);
    }
  }

  /** Filtering twice by the same category is filtering once. */
  lemma {:induction false} WithCategoryIdempotent(ps: seq<Project>, c: string)
    ensures WithCategory(WithCategory(ps, c), c) == WithCategory(ps, c)
  {
    if ps != [] {
      var init := ps[..|ps| - 1];
      var last := ps[|ps| - 1];
      WithCategoryIdempotent(init, c);
      if last.category == c {
        WithCategoryAppend(WithCategory(init, c), [last], c);
        assert WithCategory([last], c) == WithCategory([], c) + [last];
      }
    }
  }

  /** `filterProjects`: everything for `'all'`, otherwise the projects of the selected category. */
  function Filtered(ps: seq<Project>, selected: string): (r: seq<Project>)
    ensures |r| <= |ps|
    ensures forall p :: p in r ==> p in ps
  {
    if selected == All then ps else WithCategory(ps, selected)
  }

  /** What a selection shows: everything for `'all'`, otherwise exactly the projects whose category is the selection. */
  lemma FilteredShows(ps: seq<Project>, selected: string)
    ensures selected == All ==> Filtered(ps, selected) == ps
    ensures selected != All ==> forall p :: p in Filtered(ps, selected) <==> p in ps && p.category == selected
  {
    WithCategoryMembers(ps, selected);
  }

  /** The category of each project, in list order (`projects.map(p => p.category)`). */
  function CategoryColumn(ps: seq<Project>): (col: seq<string>)
    ensures |col| == |ps|
    ensures forall k :: 0 <= k < |ps| ==> col[k] == ps[k].category
  {
    if ps == [] then [] else CategoryColumn(ps[..|ps| - 1]) + [ps[|ps| - 1].category]
  }

  /** `Array.from(new Set(xs))`: each value once, in the order of its first occurrence. */
  function Distinct(xs: seq<string>): (r: seq<string>)
    ensures forall x :: x in r <==> x in xs
    ensures NoDuplicates(r)
  {
    if xs == [] then []
    else
      var init := Distinct(xs[..|xs| - 1]);
      var last := xs[|xs| - 1];
      assert xs == xs[..|xs| - 1] + [last];
      if last in init then init else init + [last]
  }

  /** The values of `Distinct(xs)` come in the order in which `xs` first shows them. */
  lemma {:induction false} DistinctFirstSeenOrder(xs: seq<string>)
    ensures forall i, j :: 0 <= i < j < |Distinct(xs)| ==> Position(xs, Distinct(xs)[i]) < Position(xs, Distinct(xs)[j])
  {
    if xs != [] {
      var init := xs[..|xs| - 1];
      var last := xs[|xs| - 1];
      var r0 := Distinct(init);
      DistinctFirstSeenOrder(init);
      assert xs == init + [last];
      forall x | x in init
        ensures Position(xs, x) == Position(init, x)
      {
        PositionSnoc(init, last, x);
      }
      var r := Distinct(xs);
      forall i, j | 0 <= i < j < |r|
        ensures Position(xs, r[i]) < Position(xs, r[j])
      {
        assert r[i] == r0[i] && r[i] in init;
        if j < |r0| {
          assert r[j] == r0[j] && r[j] in init;
          assert Position(init, r0[i]) < Position(init, r0[j]);
        } else {
          assert r[j] == last && last !in init;
        }
      }
    }
  }

  /** `categories`: `'all'`, then each category of the loaded projects once, first seen first. */
  function Categories(ps: seq<Project>): (r: seq<string>)
    ensures |r| >= 1 && r[0] == All
    ensures forall c :: c in r[1..] <==> exists k :: 0 <= k < |ps| && ps[k].category == c
  {
    var col := CategoryColumn(ps);
    assert forall c :: c in col <==> exists k :: 0 <= k < |ps| && col[k] == c;
    [All] + Distinct(col)
  }

  /** The buttons have distinct labels exactly when no project has the category `'all'`. */
  lemma CategoriesUnique(ps: seq<Project>)
    ensures NoDuplicates(Categories(ps)) <==> forall k :: 0 <= k < |ps| ==> ps[k].category != All
  {
    var r := Categories(ps);
    if exists k :: 0 <= k < |ps| && ps[k].category == All {
      assert All in r[1..];
      var j :| 0 <= j < |r[1..]| && r[1..][j] == All;
      assert r[0] == r[j + 1];
    } else {
      forall i, j | 0 <= i < j < |r|
        ensures r[i] != r[j]
      {
        assert r[j] == r[1..][j - 1];
        if i > 0 {
          assert r[i] == r[1..][i - 1];
        } else {
          assert r[j] in r[1..];
        }
      }
    }
  }

  /** Every button other than `'all'` selects at least one project. */
  lemma NoEmptyCategory(ps: seq<Project>, c: string)
    requires c in Categories(ps) && c != All
    ensures |Filtered(ps, c)| > 0
  {
    var r := Categories(ps);
    var i :| 0 <= i < |r| && r[i] == c;
    assert r[1..][i - 1] == c;
    var k :| 0 <= k < |ps| && ps[k].category == c;
    WithCategoryMembers(ps, c);
    assert ps[k] in WithCategory(ps, c);
  }

  /** The page's state. */
  class Page {
    var projects: seq<Project>
    var filteredProjects: seq<Project>
    var selectedCategory: string
    var loading: bool

    /** The list shown is the filter of the loaded projects by the selected category. */
    predicate Synced()
      reads this
    {
      filteredProjects == Filtered(projects, selectedCategory)
    }

    /** Nothing loaded, `'all'` selected, loading. */
    constructor()
      ensures projects == [] && filteredProjects == [] && selectedCategory == All && loading
      ensures Synced()
    {
      projects := [];
      filteredProjects := [];
      selectedCategory := All;
      loading := true;
    }

    /** `filterProjects`, which the effect runs whenever the projects or the selection change. */
    method FilterProjects()
      modifies this
      ensures filteredProjects == Filtered(projects, selectedCategory)
      ensures projects == old(projects) && selectedCategory == old(selectedCategory) && loading == old(loading)
    {
      if selectedCategory == All {
        filteredProjects := projects;
      } else {
        filteredProjects := WithCategory(projects, selectedCategory);
      }
    }

    /**
     * `loadProjects` followed by the filter effect. `response` is the parsed
     * body of `/api/projects`, or `None` when the fetch or the parse throws;
     * either way loading ends.
     */
    method LoadProjects(response: Option<seq<Project>>)
      modifies this
      ensures projects == (if response.Some? then response.value else old(projects))
      ensures selectedCategory == old(selectedCategory) && !loading
      ensures Synced()
    {
      if response.Some? {
        projects := response.value;
      }
      loading := false;
      FilterProjects();
    }

    /** A category button's `onClick`, followed by the filter effect. */
    method SelectCategory(category: string)
      modifies this
      ensures selectedCategory == category && projects == old(projects) && loading == old(loading)
      ensures Synced()
    {
      selectedCategory := category;
      FilterProjects();
    }

    /** `Showing <shown> of <total> projects`. */
    function Counts(): (counts: (nat, nat))
      reads this
      ensures counts.1 == |projects|
      ensures Synced() ==> counts.0 <= counts.1
    {
      (|filteredProjects|, |projects|)
    }

    /** The category buttons. */
    function Buttons(): (labels: seq<string>)
      reads this
      ensures |labels| >= 1 && labels[0] == All
    {
      Categories(projects)
    }
  }
}
