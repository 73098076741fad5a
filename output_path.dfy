/**
 * The default output location of `process_excel_file`
 * (excel_processor.py:106-108): `<parent>/<stem>_processed<suffix>`, with
 * stem and suffix split as pathlib splits a file name.
 */
module OutputPath {
  import opened Cells

  /** A file path as its parent directory and its final component. */
  datatype FilePath = FilePath(parent: string, name: string)

  const Tag: string := "_processed"

  /** The position of the last '.' in `name`, if any (`str.rfind`). */
  function LastDot(name: string): (r: Option<nat>)
    ensures r.Some? ==> r.value < |name| && name[r.value] == '.' && '.' !in name[r.value + 1..]
    ensures r.None? <==> '.' !in name
  {
    if |name| == 0 then None
    else if name[|name| - 1] == '.' then Some(|name| - 1)
    else
      var r := LastDot(name[..|name| - 1]);
      assert name == name[..|name| - 1] + [name[|name| - 1]];
      if r.Some? then
        assert name[r.value + 1..] == name[..|name| - 1][r.value + 1..] + [name[|name| - 1]];
        r
      else r
  }

  /** The dot that starts pathlib's suffix: not the first and not the last character. */
  function SuffixDot(name: string): (r: Option<nat>)
    ensures r.Some? ==> 0 < r.value < |name| - 1 && name[r.value] == '.'
  {
    match LastDot(name)
    case Some(i) => if 0 < i < |name| - 1 then Some(i) else None
    case None => None
  }

  /** `PurePath.suffix` */
  function Suffix(name: string): string {
    match SuffixDot(name)
    case Some(i) => name[i..]
    case None => ""
  }

  /** `PurePath.stem` */
  function Stem(name: string): string {
    match SuffixDot(name)
    case Some(i) => name[..i]
    case None => name
  }

  /** A name splits into its stem followed by its suffix; a suffix is empty or a dot with no other dot. */
  lemma StemSuffix(name: string)
    ensures Stem(name) + Suffix(name) == name
    ensures Suffix(name) == "" || (Suffix(name)[0] == '.' && '.' !in Suffix(name)[1..])
  {
    match SuffixDot(name)
    case Some(i) =>
      assert name[..i] + name[i..] == name;
      assert name[i..][1..] == name[i + 1..];
    case None =>
  }

  /** The default output file: same directory, the input's stem and suffix around `_processed`. */
  function ProcessedPath(input: FilePath): FilePath {
    FilePath(input.parent, Stem(input.name) + Tag + Suffix(input.name))
  }

  /** Where the result is written: the given output path, or the default one (lines 106-108). */
  function Destination(input: FilePath, output: Option<FilePath>): FilePath {
    match output
    case Some(p) => p
    case None => ProcessedPath(input)
  }

  /** The default output never overwrites the input: its name is ten characters longer. */
  lemma {:induction false} ProcessedDiffers(input: FilePath)
    ensures ProcessedPath(input).parent == input.parent
    ensures |ProcessedPath(input).name| == |input.name| + |Tag|
    ensures ProcessedPath(input) != input
  {
    StemSuffix(input.name);
  }

  /**
   * Splitting the default output name again gives back the input's suffix and
   * the input's stem with `_processed` appended, unless the input name ends
   * in a dot after its first character (then "._processed" becomes the suffix).
   */
  lemma {:induction false} ProcessedSplit(input: FilePath)
    requires !(1 < |input.name| && input.name[|input.name| - 1] == '.')
    ensures Suffix(ProcessedPath(input).name) == Suffix(input.name)
    ensures Stem(ProcessedPath(input).name) == Stem(input.name) + Tag
  {
    var name := input.name;
    var out := ProcessedPath(input).name;
    StemSuffix(name);
    match SuffixDot(name)
    case Some(i) =>
      assert out == name[..i] + Tag + name[i..];
      var j := |name[..i] + Tag|;
      assert out[j..] == name[i..];
      assert out[j + 1..] == name[i + 1..];
      assert LastDot(out) == Some(j);
    case None =>
      assert out == name + Tag;
      assert '.' !in Tag;
      match LastDot(name)
      case None =>
        assert '.' !in out;
      case Some(i) =>
        assert i == 0;
        assert out[1..] == name[1..] + Tag;
        assert '.' !in out[1..];
        assert LastDot(out) == Some(0);
  }

  /** The exception: a name such as "data." has no suffix, but its default output "data._processed" has suffix "._processed". */
  lemma {:induction false} TrailingDotSplit(input: FilePath)
    requires 1 < |input.name| && input.name[|input.name| - 1] == '.'
    ensures Suffix(input.name) == ""
    ensures Suffix(ProcessedPath(input).name) == "." + Tag
  {
    var name := input.name;
    var out := ProcessedPath(input).name;
    assert LastDot(name) == Some(|name| - 1);
    assert out == name + Tag;
    assert out[|name|..] == Tag;
    assert '.' !in Tag;
    assert LastDot(out) == Some(|name| - 1);
    assert out[|name| - 1..] == "." + Tag;
  }
}
