/**
 * `ContentProcessor` (scripts/process-content.js): walks the residential and
 * then the unbuilt category directory, converts the images of every project
 * directory and accumulates one record per project directory in its
 * `projects` field, which is finally written out as `projects.json`.
 *
 * The file system, the markdown parser and the image encoder are inputs: a
 * directory is given by its listing and by what `fs.stat` says of each
 * entry, a project directory by the front matter of each markdown file that
 * can be read and parsed, and by the set of files the encoder throws on.
 */
module ContentProcessing {
  import opened Wrappers
  import opened Text
  import opened NodePath
  import opened Naming
  import opened Manifest
  import opened Seqs

  // ---------------------------------------------------------------------------
  // The content tree

  /** What `fs.stat` says about a directory entry; `StatFails` when it throws. */
  datatype Kind = RegularFile | Folder | OtherKind | StatFails

  datatype Entry = Entry(name: string, kind: Kind)

  /** The front matter of a project's markdown file; a key that is not there is `None`. */
  datatype FrontMatter = FrontMatter(title: Option<string>, description: Option<string>, year: Option<int>, location: Option<string>)

  /** The `{}` used when a project has no markdown file. */
  const NoFrontMatter := FrontMatter(None, None, None, None)

  /**
   * A project directory: its name, its listing (`None` when `readdir`
   * throws), the front matter of every markdown file that can be read and
   * parsed, and the names of the files on which the image encoder throws.
   */
  datatype ProjectDir = ProjectDir(name: string, listing: Option<seq<Entry>>, markdown: map<string, FrontMatter>, failing: set<string>)

  /** An entry of a category directory, by what `fs.stat` says of it. */
  datatype Child = ProjectFolder(dir: ProjectDir) | NotAFolder(name: string) | Unstattable(name: string)

  /** A category directory: missing, present but unreadable, or listed. */
  datatype Category = Missing | Unlistable | Listed(children: seq<Child>)

  /** The two category directories, `3_RESIDENTIAL` and `6_UNBUILT (ARCHIVE)`. */
  datatype ContentTree = ContentTree(residential: Category, unbuilt: Category)

  const Residential := "residential"
  const Unbuilt := "unbuilt"

  /** The extensions the image loop accepts, compared after lower-casing. */
  const ImageExtensions: seq<string> := [".jpg", ".jpeg", ".png", ".tiff", ".tif"]

  /** The last component of the output directory `frontend/public/projects`. */
  const OutputRoot := "projects"

  // ---------------------------------------------------------------------------
  // Images of one project

  predicate HasImageExtension(name: string) {
    ToLower(ExtName(name)) in ImageExtensions
  }

  predicate IsArchiveName(name: string) {
    Contains(ToLower(name), "archive")
  }

  /** Whether the image loop hands an entry to the encoder. */
  predicate IsImageFile(e: Entry) {
    e.kind == RegularFile && HasImageExtension(e.name) && !IsArchiveName(e.name)
  }

  /**
   * `path.basename(outputDir)` for the project output directory
   * `path.join(this.outputDir, slug)`: the slug, except that an empty slug
   * leaves the output root itself.
   */
  function OutputDirName(slug: string): (d: string)
    ensures d != []
    ensures slug != [] ==> d == slug
  {
    if slug == [] then OutputRoot else slug
  }

  /** The entry pushed for a converted file of the output directory `dirName`. */
  function ImageEntry(dirName: string, file: string): Image {
    var out := SanitizeFileName(file);
    Image("/projects/" + dirName + "/" + out, "/projects/" + dirName + "/thumb_" + out, dirName + " - " + Stem(file))
  }

  /** What the image loop has pushed after visiting `entries`, none of whose `stat` calls throws. */
  function ImagesOf(entries: seq<Entry>, failing: set<string>, dirName: string): seq<Image> {
    if entries == [] then []
    else
      var last := entries[|entries| - 1];
      ImagesOf(entries[..|entries| - 1], failing, dirName)
        + (if IsImageFile(last) && last.name !in failing then [ImageEntry(dirName, last.name)] else [])
  }

  predicate IsStatFailure(e: Entry) {
    e.kind == StatFails
  }

  /** The index of the first entry whose `stat` throws, or the length of the listing. */
  function StatReach(entries: seq<Entry>): nat {
    FirstIndex(entries, IsStatFailure)
  }

  /**
   * `processProjectImages`: the images of every entry before the first one
   * whose `stat` throws; nothing when the directory cannot be listed.
   */
  function ProcessedImages(dir: ProjectDir, dirName: string): seq<Image> {
    match dir.listing
    case None => []
    case Some(entries) => ImagesOf(entries[..StatReach(entries)], dir.failing, dirName)
  }

  // ---------------------------------------------------------------------------
  // Markdown and the project record

  predicate IsMarkdown(name: string) {
    ToLower(ExtName(name)) == ".md"
  }

  predicate IsMarkdownEntry(e: Entry) {
    IsMarkdown(e.name)
  }

  /** `findMarkdownFile`: the first name with extension `.md` in any case, if the directory can be listed. */
  function FindMarkdownFile(listing: Option<seq<Entry>>): Option<string> {
    match listing
    case None => None
    case Some(entries) =>
      var i := FirstIndex(entries, IsMarkdownEntry);
      if i < |entries| then Some(entries[i].name) else None
  }

  /** `value || fallback` for a string read from the front matter: the empty string is falsy. */
  function OrElse(value: Option<string>, fallback: string): (r: string)
    ensures value.Some? && value.value != [] ==> r == value.value
    ensures value.None? || value.value == [] ==> r == fallback
  {
    if value.Some? && value.value != [] then value.value else fallback
  }

  /** `year || fallback`: the year 0 is falsy. */
  function YearOr(value: Option<int>, fallback: int): (r: int)
    ensures value.Some? && value.value != 0 ==> r == value.value
    ensures value.None? || value.value == 0 ==> r == fallback
  {
    if value.Some? && value.value != 0 then value.value else fallback
  }

  /**
   * The front matter `processProject` works with: `{}` without a markdown
   * file, `None` when the markdown file cannot be read or parsed (the call
   * rejects).
   */
  function FrontMatterOf(dir: ProjectDir): Option<FrontMatter> {
    match FindMarkdownFile(dir.listing)
    case None => Some(NoFrontMatter)
    case Some(md) => if md in dir.markdown then Some(dir.markdown[md]) else None
  }

  /** The record `processProject` pushes, or `None` when it rejects. */
  function ProjectRecord(dir: ProjectDir, category: string, currentYear: int): (r: Option<Project>)
    ensures r.Some? <==> FrontMatterOf(dir).Some?
  {
    var slug := GenerateSlug(dir.name);
    match FrontMatterOf(dir)
    case None => None
    case Some(fm) =>
      var images := ProcessedImages(dir, OutputDirName(slug));
      Some(Project(
        id := slug,
        title := OrElse(fm.title, FormatProjectName(dir.name)),
        description := OrElse(fm.description, ""),
        category := category,
        year := YearOr(fm.year, currentYear),
        location := OrElse(fm.location, ""),
        images := images,
        thumbnail := if images == [] then None else Some(images[0]),
        slug := slug))
  }

  // ---------------------------------------------------------------------------
  // Category walks and the whole run

  /**
   * Whether visiting `c` rejects: its `stat` throws, or it is a project
   * directory whose markdown file cannot be read.
   */
  predicate Rejects(c: Child) {
    c.Unstattable? || (c.ProjectFolder? && FrontMatterOf(c.dir).None?)
  }

  /** What visiting one child that does not reject pushes: the record of a project directory. */
  function Pushed(c: Child, category: string, currentYear: int): seq<Project> {
    if c.ProjectFolder? && ProjectRecord(c.dir, category, currentYear).Some?
    then [ProjectRecord(c.dir, category, currentYear).value] else []
  }

  /** What the category loop has pushed after visiting `children`. */
  function RecordsOf(children: seq<Child>, category: string, currentYear: int): seq<Project> {
    if children == [] then []
    else RecordsOf(children[..|children| - 1], category, currentYear) + Pushed(children[|children| - 1], category, currentYear)
  }

  /** Visiting one more child extends what the category loop has pushed. */
  lemma RecordsOfSnoc(children: seq<Child>, i: nat, category: string, currentYear: int)
    requires i < |children|
    ensures RecordsOf(children[..i + 1], category, currentYear)
         == RecordsOf(children[..i], category, currentYear) + Pushed(children[i], category, currentYear)
  {
    assert children[..i + 1][..i] == children[..i];
  }

  /** The records a walk pushed and whether it ran to its end without rejecting. */
  datatype Pass = Pass(pushed: seq<Project>, completed: bool)

  /**
   * `processResidentialProjects` / `processUnbuiltProjects`: a missing
   * directory adds nothing; an unreadable one rejects; otherwise every child
   * up to the first rejecting one is visited.
   */
  function CategoryPass(cat: Category, category: string, currentYear: int): Pass {
    match cat
    case Missing => Pass([], true)
    case Unlistable => Pass([], false)
    case Listed(children) =>
      var n := FirstIndex(children, Rejects);
      Pass(RecordsOf(children[..n], category, currentYear), n == |children|)
  }

  /** `processContent`: residential first, then unbuilt, unless the first walk rejects. */
  function Run(tree: ContentTree, currentYear: int): Pass {
    var residential := CategoryPass(tree.residential, Residential, currentYear);
    if !residential.completed then residential
    else
      var unbuilt := CategoryPass(tree.unbuilt, Unbuilt, currentYear);
      Pass(residential.pushed + unbuilt.pushed, unbuilt.completed)
  }

  /** `Run` in terms of the two category walks. */
  lemma RunSplit(tree: ContentTree, currentYear: int)
    ensures var residential := CategoryPass(tree.residential, Residential, currentYear);
            var unbuilt := CategoryPass(tree.unbuilt, Unbuilt, currentYear);
            Run(tree, currentYear) == if residential.completed then Pass(residential.pushed + unbuilt.pushed, unbuilt.completed) else residential
  {
  }

  // ---------------------------------------------------------------------------
  // The processor

  class ContentProcessor {
    /** The records pushed so far, in push order. */
    var projects: seq<Project>

    constructor()
      ensures projects == []
    {
      projects := [];
    }

    /** `processProjectImages`: the loop over the listing, with the encoder's failures caught per file. */
    method ProcessProjectImages(dir: ProjectDir, outputDirName: string) returns (images: seq<Image>)
      ensures images == ProcessedImages(dir, outputDirName)
    {
      images := [];
      if dir.listing.None? {
        return;
      }
      var files := dir.listing.value;
      ghost var reach := StatReach(files);
      var i := 0;
      while i < |files|
        invariant 0 <= i <= reach
        invariant images == ImagesOf(files[..i], dir.failing, outputDirName)
      {
        var file := files[i];
        if file.kind == StatFails {
          FirstIndexHit(files, IsStatFailure, i);
          break;
        }
        FirstIndexPast(files, IsStatFailure, i);
        if IsImageFile(file) && file.name !in dir.failing {
          images := images + [ImageEntry(outputDirName, file.name)];
        }
        assert files[..i + 1][..i] == files[..i];
        i := i + 1;
      }
      assert i == reach;
    }

    /** `processProject`: builds the record and pushes it; `false` when the call rejects. */
    method ProcessProject(dir: ProjectDir, category: string, currentYear: int) returns (completed: bool)
      modifies this
      ensures completed == ProjectRecord(dir, category, currentYear).Some?
      ensures projects == old(projects) + if completed then [ProjectRecord(dir, category, currentYear).value] else []
    {
      var slug := GenerateSlug(dir.name);
      var outputDirName := OutputDirName(slug);
      var mdFile := FindMarkdownFile(dir.listing);
      var frontMatter := NoFrontMatter;
      if mdFile.Some? {
        if mdFile.value !in dir.markdown {
          return false;
        }
        frontMatter := dir.markdown[mdFile.value];
      }
      var images := ProcessProjectImages(dir, outputDirName);
      var project := Project(
        id := slug,
        title := OrElse(frontMatter.title, FormatProjectName(dir.name)),
        description := OrElse(frontMatter.description, ""),
        category := category,
        year := YearOr(frontMatter.year, currentYear),
        location := OrElse(frontMatter.location, ""),
        images := images,
        thumbnail := if images == [] then None else Some(images[0]),
        slug := slug);
      projects := projects + [project];
      return true;
    }

    /**
     * One turn of the category loop: `fs.stat` the child and process it when
     * it is a directory; `false` when the turn rejects.
     */
    method VisitChild(child: Child, category: string, currentYear: int) returns (ok: bool)
      modifies this
      ensures ok == !Rejects(child)
      ensures projects == old(projects) + Pushed(child, category, currentYear)
    {
      match child
      case Unstattable(_) =>
        ok := false;
      case NotAFolder(_) =>
        ok := true;
      case ProjectFolder(dir) =>
        ok := ProcessProject(dir, category, currentYear);
    }

    /** The loop of `processResidentialProjects` and `processUnbuiltProjects`; `false` when it rejects. */
    method ProcessCategory(cat: Category, category: string, currentYear: int) returns (completed: bool)
      modifies this
      ensures completed == CategoryPass(cat, category, currentYear).completed
      ensures projects == old(projects) + CategoryPass(cat, category, currentYear).pushed
    {
      if cat.Missing? {
        return true;
      }
      if cat.Unlistable? {
        return false;
      }
      var children := cat.children;
      ghost var reach := FirstIndex(children, Rejects);
      var i := 0;
      while i < |children|
        invariant 0 <= i <= reach
        invariant projects == old(projects) + RecordsOf(children[..i], category, currentYear)
      {
        ghost var before := projects;
        var ok := VisitChild(children[i], category, currentYear);
        if !ok {
          FirstIndexHit(children, Rejects, i);
          assert projects == before;
          return false;
        }
        FirstIndexPast(children, Rejects, i);
        RecordsOfSnoc(children, i, category, currentYear);
        AppendAssoc(old(projects), RecordsOf(children[..i], category, currentYear), Pushed(children[i], category, currentYear));
        i := i + 1;
      }
      assert i == reach;
      return true;
    }

    /** `generateProjectsData`: what is written to `projects.json`. */
    method GenerateProjectsData() returns (json: seq<Project>)
      ensures json == projects
    {
      json := projects;
    }

    /**
     * `processContent`: residential, then unbuilt, then the data file. A
     * rejection anywhere leaves the data file unwritten (`None`).
     */
    method ProcessContent(tree: ContentTree, currentYear: int) returns (written: Option<seq<Project>>)
      modifies this
      ensures projects == old(projects) + Run(tree, currentYear).pushed
      ensures written == if Run(tree, currentYear).completed then Some(projects) else None
    {
      var ok := ProcessCategory(tree.residential, Residential, currentYear);
      RunSplit(tree, currentYear);
      if !ok {
        return None;
      }
      ok := ProcessCategory(tree.unbuilt, Unbuilt, currentYear);
      AppendAssoc(old(projects), CategoryPass(tree.residential, Residential, currentYear).pushed, CategoryPass(tree.unbuilt, Unbuilt, currentYear).pushed);
      if !ok {
        return None;
      }
      var json := GenerateProjectsData();
      return Some(json);
    }
  }
}
