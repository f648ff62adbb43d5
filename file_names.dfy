/**
 * The file extension both chat screens take from an uploaded file's name,
 * `file.name.split(".").pop()`, used to build the storage key.
 */
module FileNames {
  import opened JsText

  /** The last `.`-separated piece of `name`. */
  function FileExtension(name: string): (ext: string)
    ensures '.' !in ext
    ensures |ext| <= |name| && name[|name| - |ext|..] == ext
  {
    var parts := Split(name, '.');
    SplitPiecesHaveNoSeparator(name, '.');
    JoinSplit(name, '.');
    JoinEndsWithLast(parts, '.');
    Last(parts)
  }

  lemma {:induction false} JoinEndsWithLast(parts: seq<string>, sep: char)
    requires |parts| >= 1
    ensures |Last(parts)| <= |Join(parts, sep)|
    ensures Join(parts, sep)[|Join(parts, sep)| - |Last(parts)|..] == Last(parts)
    decreases |parts|
  {
    if |parts| > 1 {
      JoinEndsWithLast(parts[1..], sep);
      assert Last(parts[1..]) == Last(parts);
    }
  }

  /** A name without a `.` is its own extension. */
  lemma ExtensionWithoutDot(name: string)
    requires '.' !in name
    ensures FileExtension(name) == name
  {
    SplitWithoutSeparator(name, '.');
  }

  /** Otherwise the extension is everything after the last `.`. */
  lemma ExtensionAfterLastDot(name: string, i: nat)
    requires i < |name| && name[i] == '.' && '.' !in name[i + 1..]
    ensures FileExtension(name) == name[i + 1..]
  {
    assert name == name[..i] + ['.'] + name[i + 1..];
    SplitAtSeparator(name[..i], '.', name[i + 1..]);
    SplitWithoutSeparator(name[i + 1..], '.');
  }

  /** Appending `.ext` to any prefix makes `ext` the extension again. */
  lemma ExtensionOfDottedName(prefix: string, ext: string)
    requires '.' !in ext
    ensures FileExtension(prefix + "." + ext) == ext
  {
    var name := prefix + "." + ext;
    assert name[|prefix|] == '.' && name[|prefix| + 1..] == ext;
    ExtensionAfterLastDot(name, |prefix|);
  }
}
