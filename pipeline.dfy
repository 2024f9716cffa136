/**
 * The two halves together: the category buttons that the projects page
 * derives from a `projects.json` written by the content processor.
 */
module Pipeline {
  import opened ContentProcessing
  import opened ContentProperties
  import opened ProjectsPage
  import opened Manifest

  /** A sequence made of a run of `first` followed by a run of `second`. */
  predicate TwoRuns(col: seq<string>, split: nat, first: string, second: string)
  {
    split <= |col| && forall k :: 0 <= k < |col| ==> col[k] == (if k < split then first else second)
  }

  /** The distinct values of two runs are the values of the non-empty runs, in order. */
  lemma {:induction false} DistinctTwoRuns(col: seq<string>, split: nat, first: string, second: string)
    requires first != second && TwoRuns(col, split, first, second)
    ensures Distinct(col) == (if split > 0 then [first] else []) + (if |col| > split then [second] else [])
  {
    if col != [] {
      var init := col[..|col| - 1];
      var shorter := if split < |col| then split else |col| - 1;
      assert TwoRuns(init, shorter, first, second);
      DistinctTwoRuns(init, shorter, first, second);
    }
  }

  /** The category column of records labelled in two runs is made of the same two runs. */
  lemma ColumnTwoRuns(ps: seq<Project>, split: nat, first: string, second: string)
    requires LabelledInTwoRuns(ps, split, first, second)
    ensures TwoRuns(CategoryColumn(ps), split, first, second)
  {
    var col := CategoryColumn(ps);
    forall k | 0 <= k < |col|
      ensures col[k] == (if k < split then first else second)
    {
      assert col[k] == ps[k].category;
    }
  }

  /** The buttons for a residential run and an unbuilt run, each shown only when its run is non-empty. */
  function RunButtons(residential: bool, unbuilt: bool): (labels: seq<string>)
    ensures NoDuplicates(labels)
  {
    [All] + (if residential then [Residential] else []) + (if unbuilt then [Unbuilt] else [])
  }

  /** A list of residential records followed by unbuilt records yields at most those two buttons after `'all'`. */
  lemma RunsCategories(ps: seq<Project>, split: nat)
    requires LabelledInTwoRuns(ps, split, Residential, Unbuilt)
    ensures Categories(ps) == RunButtons(split > 0, |ps| > split)
  {
    var col := CategoryColumn(ps);
    ColumnTwoRuns(ps, split, Residential, Unbuilt);
    DistinctTwoRuns(col, split, Residential, Unbuilt);
    assert Categories(ps) == [All] + Distinct(col);
  }

  /**
   * The page built on the processor's output offers `'all'`, then
   * `residential` if the residential walk wrote any record, then `unbuilt` if
   * the unbuilt walk did, and no label twice.
   */
  lemma ManifestCategories(tree: ContentTree, currentYear: int)
    ensures var residential := CategoryPass(tree.residential, Residential, currentYear);
            var run := Run(tree, currentYear);
            && Categories(run.pushed)
               == [All] + (if |residential.pushed| > 0 then [Residential] else [])
                  + (if |run.pushed| > |residential.pushed| then [Unbuilt] else [])
            && NoDuplicates(Categories(run.pushed))
  {
    var residential := CategoryPass(tree.residential, Residential, currentYear);
    var run := Run(tree, currentYear);
    RunOrder(tree, currentYear);
    RunsCategories(run.pushed, |residential.pushed|);
  }
}
