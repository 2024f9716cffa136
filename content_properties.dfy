/**
 * What the content processor promises about the images, the records and
 * the order in which they are accumulated, stated over the specification
 * functions of `ContentProcessing`.
 */
module ContentProperties {
  import opened Wrappers
  import opened Text
  import opened NodePath
  import opened Naming
  import opened Manifest
  import opened Seqs
  import opened ContentProcessing

  // ---------------------------------------------------------------------------
  // Which files are images

  /** `toLowerCase` is idempotent. */
  lemma ToLowerIdempotent(s: string)
    ensures ToLower(ToLower(s)) == ToLower(s)
  {
    var t := ToLower(s);
    assert forall i :: 0 <= i < |t| ==> ToLower(t)[i] == t[i];
  }

  /** The archive exclusion ignores case: `Archive_01.JPG` is excluded like `archive_01.jpg`. */
  lemma ArchiveIgnoresCase(name: string)
    ensures IsArchiveName(name) <==> IsArchiveName(ToLower(name))
  {
    ToLowerIdempotent(name);
  }

  /** A dot-file named like an extension has no extension, so `.jpg` is not an image. */
  lemma DotFileIsNotAnImage(e: Entry)
    requires e.name == ".jpg"
    ensures !IsImageFile(e)
  {
    LastIndexOfIsLast(e.name, '.');
    assert e.name[0] == '.' && e.name[1] != '.' && e.name[2] != '.' && e.name[3] != '.';
    assert ExtName(e.name) == [];
  }

  /** An upper-case extension qualifies: `A.JPG` is an image when it is a regular file. */
  lemma UpperCaseExtensionQualifies(e: Entry)
    requires e.name == "A.JPG" && e.kind == RegularFile
    ensures IsImageFile(e)
  {
    assert e.name == "A" + ".JPG";
    StemOfJoined("A", ".JPG");
    var low := ToLower(".JPG");
    assert low == ".jpg" == ImageExtensions[0];
    var name := ToLower(e.name);
    assert |name| == 5;
    assert !Contains(name, "archive");
  }

  // ---------------------------------------------------------------------------
  // The images of one project

  /** The image list of a listing is the image lists of its two halves, one after the other. */
  lemma {:induction false} ImagesOfAppend(a: seq<Entry>, b: seq<Entry>, failing: set<string>, dirName: string)
    ensures ImagesOf(a + b, failing, dirName) == ImagesOf(a, failing, dirName) + ImagesOf(b, failing, dirName)
    decreases |b|
  {
    if b != [] {
      var b' := b[..|b| - 1];
      assert (a + b)[..|a + b| - 1] == a + b';
      ImagesOfAppend(a, b', failing, dirName);
      var last := b[|b| - 1];
      var c := if IsImageFile(last) && last.name !in failing then [ImageEntry(dirName, last.name)] else [];
      assert (a + b)[|a + b| - 1] == last;
      assert ImagesOf(b, failing, dirName) == ImagesOf(b', failing, dirName) + c;
      assert ImagesOf(a + b, failing, dirName) == ImagesOf(a + b', failing, dirName) + c;
      AppendAssoc(ImagesOf(a, failing, dirName), ImagesOf(b', failing, dirName), c);
    } else {
      assert a + b == a;
    }
  }

  /** The number of entries the image loop hands to the encoder. */
  function QualifyingCount(entries: seq<Entry>): (n: nat)
    ensures n <= |entries|
  {
    if entries == [] then 0
    else QualifyingCount(entries[..|entries| - 1]) + (if IsImageFile(entries[|entries| - 1]) then 1 else 0)
  }

  /**
   * There are at most as many images as qualifying files, and exactly as many
   * when the encoder throws on none of them.
   */
  lemma {:induction false} ImagesBound(entries: seq<Entry>, failing: set<string>, dirName: string)
    ensures |ImagesOf(entries, failing, dirName)| <= QualifyingCount(entries)
    ensures (forall j :: 0 <= j < |entries| ==> entries[j].name !in failing)
            ==> |ImagesOf(entries, failing, dirName)| == QualifyingCount(entries)
  {
    if entries != [] {
      var init := entries[..|entries| - 1];
      ImagesBound(init, failing, dirName);
      assert forall j :: 0 <= j < |init| ==> init[j] == entries[j];
    }
  }

  /** A file on which the encoder throws adds no image. */
  lemma ImagesOfFailing(before: seq<Entry>, e: Entry, failing: set<string>, dirName: string)
    requires e.name in failing
    ensures ImagesOf(before + [e], failing, dirName) == ImagesOf(before, failing, dirName)
  {
    var upTo := before + [e];
    assert upTo[..|upTo| - 1] == before && upTo[|upTo| - 1] == e;
  }

  /**
   * A file on which the encoder throws contributes nothing, and the files on
   * both sides of it are still processed.
   */
  lemma FailureIsolated(before: seq<Entry>, e: Entry, after: seq<Entry>, failing: set<string>, dirName: string)
    requires e.name in failing
    ensures ImagesOf(before + [e] + after, failing, dirName)
         == ImagesOf(before, failing, dirName) + ImagesOf(after, failing, dirName)
  {
    ImagesOfAppend(before + [e], after, failing, dirName);
    ImagesOfFailing(before, e, failing, dirName);
  }

  /** A single path component made of safe characters and ending in `.jpg`. */
  predicate IsSafeJpgName(out: string)
  {
    |out| >= 4 && out[|out| - 4..] == ".jpg" && forall i :: 0 <= i < |out| - 4 ==> IsSafeFileChar(out[i])
  }

  /** The sanitised file name is a safe `.jpg` name. */
  lemma SafeJpgName(file: string)
    ensures IsSafeJpgName(SanitizeFileName(file))
  {
    var out := SanitizeFileName(file);
    var stem := SanitizeStem(Stem(file));
    SanitizeFileNameShape(file);
    assert out[|out| - 4..] == ".jpg";
    forall i | 0 <= i < |out| - 4
      ensures IsSafeFileChar(out[i])
    {
      assert out[i] == stem[i];
    }
  }

  /**
   * A processed file gives one entry per converted image: the full-size file
   * and its `thumb_` twin sit side by side in the project's output directory,
   * under a single safe path component ending in `.jpg`; the alternative text
   * names the directory and the source file's stem.
   */
  lemma ImageEntryPaths(dirName: string, file: string)
    ensures var img := ImageEntry(dirName, file);
            var dir := "/projects/" + dirName + "/";
            var out := img.src[|dir|..];
            && |img.src| >= |dir|
            && img.src[..|dir|] == dir
            && img.thumbnail == dir + "thumb_" + out
            && IsSafeJpgName(out)
            && img.alt == dirName + " - " + Stem(file)
  {
    var out := SanitizeFileName(file);
    SafeJpgName(file);
    var dir := "/projects/" + dirName + "/";
    assert ImageEntry(dirName, file).src == dir + out;
    assert (dir + out)[|dir|..] == out;
    assert "/projects/" + dirName + "/thumb_" + out == dir + "thumb_" + out;
  }

  /**
   * An entry whose `stat` throws ends the image loop: the images are those of
   * the entries before it, and nothing after it is looked at.
   */
  lemma StatFailureStops(dir: ProjectDir, dirName: string, k: nat)
    requires dir.listing.Some? && k < |dir.listing.value|
    requires dir.listing.value[k].kind == StatFails
    requires forall j :: 0 <= j < k ==> dir.listing.value[j].kind != StatFails
    ensures ProcessedImages(dir, dirName) == ImagesOf(dir.listing.value[..k], dir.failing, dirName)
  {
    FirstIndexAt(dir.listing.value, IsStatFailure, k);
  }

  // ---------------------------------------------------------------------------
  // The markdown file and the project record

  /**
   * `findMarkdownFile` picks the first entry whose extension is `.md` in any
   * case, and finds none exactly when there is none (or the directory cannot
   * be listed).
   */
  lemma FindMarkdownFirst(listing: Option<seq<Entry>>)
    ensures var md := FindMarkdownFile(listing);
            && (md.None? <==> listing.None? || forall j :: 0 <= j < |listing.value| ==> !IsMarkdown(listing.value[j].name))
            && (md.Some? ==> exists i :: 0 <= i < |listing.value| && listing.value[i].name == md.value
                                        && IsMarkdown(md.value)
                                        && forall j :: 0 <= j < i ==> !IsMarkdown(listing.value[j].name))
  {
    if listing.Some? {
      FirstIndexSpec(listing.value, IsMarkdownEntry);
    }
  }

  /**
   * The record of a project whose markdown file (if any) can be read: its id
   * and slug are the well-formed slug of the directory name, it carries the
   * category label, its images are those the image loop produced, and its
   * cover is the first of them, or none when there are none. Projects without
   * images are kept.
   */
  lemma ProjectRecordSpec(dir: ProjectDir, category: string, currentYear: int)
    requires FrontMatterOf(dir).Some?
    ensures var r := ProjectRecord(dir, category, currentYear);
            var slug := GenerateSlug(dir.name);
            && r.Some?
            && r.value.id == slug && r.value.slug == slug && IsSlug(slug)
            && r.value.category == category
            && r.value.images == ProcessedImages(dir, OutputDirName(slug))
            && (r.value.thumbnail.None? <==> r.value.images == [])
            && (r.value.thumbnail.Some? ==> r.value.thumbnail.value == r.value.images[0])
  {
    SlugWellFormed(dir.name);
  }

  /**
   * Without a markdown file every field takes its fallback: the formatted
   * directory name (which holds no `_`), empty description and location,
   * and the current year.
   */
  lemma NoMarkdownDefaults(dir: ProjectDir, category: string, currentYear: int)
    requires FindMarkdownFile(dir.listing).None?
    ensures var r := ProjectRecord(dir, category, currentYear);
            && r.Some?
            && r.value.title == FormatProjectName(dir.name) && '_' !in r.value.title
            && r.value.description == [] && r.value.location == []
            && r.value.year == currentYear
  {
    FormatProjectNameTail(dir.name);
  }

  // ---------------------------------------------------------------------------
  // Category walks and the whole run

  /** The names of the project directories among `children`, in listing order. */
  function FolderNames(children: seq<Child>): (names: seq<string>)
    ensures |names| <= |children|
  {
    if children == [] then []
    else
      var last := children[|children| - 1];
      FolderNames(children[..|children| - 1]) + (if last.ProjectFolder? then [last.dir.name] else [])
  }

  /** Visiting a child that does not reject pushes the record of a project directory and nothing otherwise. */
  lemma PushedByChild(c: Child, category: string, currentYear: int)
    requires !Rejects(c)
    ensures var p := Pushed(c, category, currentYear);
            && |p| == (if c.ProjectFolder? then 1 else 0)
            && (c.ProjectFolder? ==> p[0].id == GenerateSlug(c.dir.name) && p[0].category == category)
  {
    if c.ProjectFolder? {
      ProjectRecordSpec(c.dir, category, currentYear);
    }
  }

  /**
   * A walk over children none of which rejects pushes exactly one record per
   * project directory, in listing order, each identified by the slug of its
   * directory name and labelled with the category.
   */
  lemma {:induction false} OneRecordPerFolder(children: seq<Child>, category: string, currentYear: int)
    requires forall j :: 0 <= j < |children| ==> !Rejects(children[j])
    ensures var records := RecordsOf(children, category, currentYear);
            var names := FolderNames(children);
            && |records| == |names|
            && forall k :: 0 <= k < |records| ==> records[k].id == GenerateSlug(names[k]) && records[k].category == category
  {
    if children != [] {
      var init := children[..|children| - 1];
      var last := children[|children| - 1];
      assert forall j :: 0 <= j < |init| ==> init[j] == children[j];
      OneRecordPerFolder(init, category, currentYear);
      PushedByChild(last, category, currentYear);
    }
  }

  /** Every record a walk pushes carries the walk's category label. */
  lemma {:induction false} RecordsLabelled(children: seq<Child>, category: string, currentYear: int)
    ensures forall p :: p in RecordsOf(children, category, currentYear) ==> p.category == category
  {
    if children != [] {
      var last := children[|children| - 1];
      RecordsLabelled(children[..|children| - 1], category, currentYear);
      if last.ProjectFolder? && ProjectRecord(last.dir, category, currentYear).Some? {
        ProjectRecordSpec(last.dir, category, currentYear);
      }
    }
  }

  /**
   * A walk over a listed category that completes has visited every child,
   * so it pushed one record per project directory.
   */
  lemma CompletedWalkCoversAll(children: seq<Child>, category: string, currentYear: int)
    requires CategoryPass(Listed(children), category, currentYear).completed
    ensures var pushed := CategoryPass(Listed(children), category, currentYear).pushed;
            var names := FolderNames(children);
            && |pushed| == |names|
            && forall k :: 0 <= k < |pushed| ==> pushed[k].id == GenerateSlug(names[k]) && pushed[k].category == category
  {
    FirstIndexSpec(children, Rejects);
    assert children[..|children|] == children;
    OneRecordPerFolder(children, category, currentYear);
  }

  /** Every record in `ps` carries `category`. */
  predicate Labelled(ps: seq<Project>, category: string)
  {
    forall k :: 0 <= k < |ps| ==> ps[k].category == category
  }

  /** The first `split` records of `ps` carry `first` and the others `second`. */
  predicate LabelledInTwoRuns(ps: seq<Project>, split: nat, first: string, second: string)
  {
    split <= |ps| && forall k :: 0 <= k < |ps| ==> ps[k].category == (if k < split then first else second)
  }

  /** Records labelled `first` followed by records labelled `second` form two runs. */
  lemma ConcatLabelled(a: seq<Project>, b: seq<Project>, first: string, second: string)
    requires Labelled(a, first) && Labelled(b, second)
    ensures LabelledInTwoRuns(a + b, |a|, first, second)
  {
    var run := a + b;
    forall k | 0 <= k < |run|
      ensures run[k].category == (if k < |a| then first else second)
    {
      if k < |a| {
        assert run[k] == a[k];
      } else {
        assert run[k] == b[k - |a|];
      }
    }
  }

  /** The records of a run are the residential ones, then the unbuilt ones. */
  lemma RunLabels(tree: ContentTree, currentYear: int)
    ensures LabelledInTwoRuns(Run(tree, currentYear).pushed,
                              |CategoryPass(tree.residential, Residential, currentYear).pushed|, Residential, Unbuilt)
  {
    RunSplit(tree, currentYear);
    var residential := CategoryPass(tree.residential, Residential, currentYear);
    var unbuilt := CategoryPass(tree.unbuilt, Unbuilt, currentYear);
    WalkLabelled(tree.residential, Residential, currentYear);
    WalkLabelled(tree.unbuilt, Unbuilt, currentYear);
    if residential.completed {
      ConcatLabelled(residential.pushed, unbuilt.pushed, Residential, Unbuilt);
    }
  }

  /** The residential walk is where a run starts, and all of it when it rejects or the unbuilt walk is all of it when it is missing. */
  lemma RunShape(tree: ContentTree, currentYear: int)
    ensures var residential := CategoryPass(tree.residential, Residential, currentYear);
            var run := Run(tree, currentYear);
            && residential.pushed <= run.pushed
            && (!residential.completed ==> run == residential)
            && (tree.residential.Missing? ==> run == CategoryPass(tree.unbuilt, Unbuilt, currentYear))
  {
    RunSplit(tree, currentYear);
    var unbuilt := CategoryPass(tree.unbuilt, Unbuilt, currentYear);
    if tree.residential.Missing? {
      assert [] + unbuilt.pushed == unbuilt.pushed;
    }
  }

  /**
   * The whole run: residential records come first and unbuilt records after
   * them; each carries its category label; a missing category adds nothing;
   * a rejection in the residential walk ends the run before the unbuilt one.
   */
  lemma RunOrder(tree: ContentTree, currentYear: int)
    ensures var residential := CategoryPass(tree.residential, Residential, currentYear);
            var run := Run(tree, currentYear);
            && residential.pushed <= run.pushed
            && LabelledInTwoRuns(run.pushed, |residential.pushed|, Residential, Unbuilt)
            && (!residential.completed ==> run == residential)
            && (tree.residential.Missing? ==> run == CategoryPass(tree.unbuilt, Unbuilt, currentYear))
  {
    RunLabels(tree, currentYear);
    RunShape(tree, currentYear);
  }

  /** Every record of a category walk carries the walk's label. */
  lemma WalkLabelled(cat: Category, category: string, currentYear: int)
    ensures Labelled(CategoryPass(cat, category, currentYear).pushed, category)
  {
    if cat.Listed? {
      var n := FirstIndex(cat.children, Rejects);
      var pushed := RecordsOf(cat.children[..n], category, currentYear);
      RecordsLabelled(cat.children[..n], category, currentYear);
      assert forall k :: 0 <= k < |pushed| ==> pushed[k] in pushed;
    }
  }
}
