/**
 * The two pieces of Node's `path` module that the content processor relies on
 * to split a file name, applied to a single path component (a directory entry
 * name, which never holds a separator).
 */
module NodePath {
  import opened Text

  /**
   * Where `path.extname(name)` starts: at the last `.`, unless there is no
   * `.`, the last `.` is the first character (`.bashrc`), or the name is
   * `..`; then the extension is empty and starts at the end.
   */
  function ExtStart(name: string): (n: nat)
    ensures n <= |name|
    ensures n == 0 ==> name == []
  {
    var dot := LastIndexOf(name, '.');
    if dot <= 0 || name == ".." then |name| else dot
  }

  /** `path.extname(name)`. */
  function ExtName(name: string): string {
    name[ExtStart(name)..]
  }

  /** `path.basename(name, path.extname(name))`, which is also `path.parse(name).name`. */
  function Stem(name: string): string {
    name[..ExtStart(name)]
  }

  /** A name is its stem followed by its extension; the stem is empty only for the empty name. */
  lemma StemAndExtension(name: string)
    ensures Stem(name) + ExtName(name) == name
    ensures Stem(name) == [] <==> name == []
  {
  }

  /** An extension is empty or a `.` followed by no other `.`. */
  lemma ExtNameShape(name: string)
    ensures var ext := ExtName(name);
            ext == [] || (ext[0] == '.' && forall j :: 1 <= j < |ext| ==> ext[j] != '.')
  {
    LastIndexOfIsLast(name, '.');
    var n := ExtStart(name);
    assert forall j :: n < j < |name| ==> name[j] != '.';
  }

  /** A non-empty stem without a `.` followed by an extension is split back into the two. */
  lemma StemOfJoined(stem: string, ext: string)
    requires stem != [] && '.' !in stem
    requires |ext| >= 2 && ext[0] == '.' && '.' !in ext[1..]
    ensures ExtName(stem + ext) == ext
    ensures Stem(stem + ext) == stem
  {
    var name := stem + ext;
    LastIndexOfIsLast(name, '.');
    var dot := LastIndexOf(name, '.');
    assert name[|stem|] == '.';
    assert forall j :: |stem| < j < |name| ==> name[j] == ext[1..][j - |stem| - 1];
    assert dot >= |stem|;
    assert dot == |stem|;
    assert name != "..";
  }
}
