/** Directory entries as the activity sees them through `java.io.File`: a
    name and a last-modified time in milliseconds. */
module Files {

  datatype FileEntry = FileEntry(name: string, lastModified: int)

  /** Kotlin `File.extension`: the text after the last `.` of the name, or
      the empty string when the name has no `.`. */
  function Extension(name: string): (e: string)
    ensures '.' !in e
    ensures '.' !in name ==> e == ""
    ensures '.' in name ==> |e| < |name| && name[|name| - |e|..] == e && name[|name| - |e| - 1] == '.'
    decreases |name|
  {
    if '.' !in name then ""
    else if name[|name| - 1] == '.' then ""
    else
      var init := name[..|name| - 1];
      assert '.' in init by {
        var k :| 0 <= k < |name| && name[k] == '.';
        assert init[k] == '.';
      }
      Extension(init) + [name[|name| - 1]]
  }

  /** Whatever precedes the last dot, a dot-free tail is the extension. */
  lemma ExtensionAfterLastDot(stem: string, ext: string)
    requires '.' !in ext
    ensures Extension(stem + "." + ext) == ext
  {
    var name := stem + "." + ext;
    assert name[|stem|] == '.';
    var e := Extension(name);
    assert |e| == |ext|;
    assert e == name[|stem| + 1..] == ext;
  }
}
