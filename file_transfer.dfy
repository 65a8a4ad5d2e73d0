/** The string helpers and size limits of the file-transfer utility class. */
module FileTransfer {
  import opened Wrappers
  import opened Bytes
  import opened Text

  /** Characters of base64 text per file chunk frame. */
  const ChunkSize: nat := 400

  /** The largest file, in bytes, that may be read for sending (10 MiB). */
  const MaxFileSize: nat := 10 * 1024 * 1024

  /** The guard of `readFile`: the file's bytes (supplied, since reading is I/O) are returned when
      there are at most `MaxFileSize` of them, and an IOException with this message otherwise. */
  function ReadFile(contents: seq<byte>): (r: Result<seq<byte>, string>)
    ensures r.Ok? <==> |contents| <= MaxFileSize
    ensures r.Ok? ==> r.value == contents
  {
    if |contents| > MaxFileSize then Err("File too large! Max size is 10485760 bytes")
    else Ok(contents)
  }

  /** `getFileExtension`: the lower-cased text after the last '.', when that dot is not the
      first character; "" otherwise. */
  function GetFileExtension(filename: string): (ext: string)
    ensures '.' !in ext
    ensures LastIndexOf(filename, '.') <= 0 ==> ext == ""
  {
    var lastDot := LastIndexOf(filename, '.');
    if lastDot > 0 then ToLower(filename[lastDot + 1..]) else ""
  }

  /** `getFileNameWithoutExtension`: the text before the last '.', when that dot is not the first
      character; the whole name otherwise. */
  function GetFileNameWithoutExtension(filename: string): (name: string)
    ensures LastIndexOf(filename, '.') <= 0 ==> name == filename
    ensures |name| <= |filename| && name == filename[..|name|]
  {
    var lastDot := LastIndexOf(filename, '.');
    if lastDot > 0 then filename[..lastDot] else filename
  }

  /** A name with an extension splits into the name without extension, the dot and the text the
      extension is the lower-cased form of. */
  lemma NameAndExtensionRecombine(filename: string)
    requires LastIndexOf(filename, '.') > 0
    ensures var d := LastIndexOf(filename, '.');
      && GetFileNameWithoutExtension(filename) + "." + filename[d + 1..] == filename
      && GetFileExtension(filename) == ToLower(filename[d + 1..])
  {
    var d := LastIndexOf(filename, '.');
    assert GetFileNameWithoutExtension(filename) == filename[..d];
    SplitAtDot(filename, d);
  }

  lemma SplitAtDot(f: string, d: nat)
    requires d < |f| && f[d] == '.'
    ensures f[..d] + "." + f[d + 1..] == f
  {
    assert f[..d] + "." == f[..d + 1];
  }

  /** Composing a non-empty base name, a dot and a dot-free extension and taking it apart again
      gives back the base name and the lower-cased extension. */
  lemma ComposeDecompose(base: string, ext: string)
    requires base != [] && '.' !in ext
    ensures GetFileNameWithoutExtension(base + "." + ext) == base
    ensures GetFileExtension(base + "." + ext) == ToLower(ext)
  {
    var f := base + "." + ext;
    var d := LastIndexOf(f, '.');
    assert f[|base|] == '.';
    assert f[|base| + 1..] == ext;
    assert d == |base|;
    assert f[..d] == base;
  }

  /** A name without a dot, or whose only dot leads it (".bashrc"), has no extension and is its own
      name without extension. */
  lemma NoExtension(filename: string)
    requires '.' !in filename || (filename[0] == '.' && '.' !in filename[1..])
    ensures GetFileExtension(filename) == ""
    ensures GetFileNameWithoutExtension(filename) == filename
  {
    if filename != [] && filename[0] == '.' {
      assert forall i :: 1 <= i < |filename| ==> filename[i] == filename[1..][i - 1];
    }
  }
}
