/** `SupportedFormats::isSupported`: whether a dropped file name has an
    extension that the sound-file library can read. The set of extensions,
    which the source gathers by querying the library, is a parameter. */
module Formats {
  import opened Common
  import opened Text

  /** `std::tolower` in the "C" locale: only 'A'..'Z' change. */
  function LowerChar(c: char): char {
    if 'A' <= c <= 'Z' then (c as int + 32) as char else c
  }

  function Lower(s: string): (r: string)
    ensures |r| == |s|
    ensures forall k :: 0 <= k < |s| ==> r[k] == LowerChar(s[k])
  {
    seq(|s|, k requires 0 <= k < |s| => LowerChar(s[k]))
  }

  /** `std::filesystem::path::extension` of a file name (a path without
      '/'): from the last '.' to the end, except that "." and "..", names
      without a '.', and names whose only '.' leads them have none. */
  function Extension(filename: string): (ext: string)
    ensures ext != [] ==> ext[0] == '.' && |ext| < |filename|
    ensures ext != [] ==> ext == filename[|filename| - |ext|..]
    ensures ext != [] ==> '.' !in ext[1..]
  {
    if filename == "." || filename == ".." then ""
    else
      match LastIndexOf(filename, '.')
      case None => ""
      case Some(i) => if i == 0 then "" else filename[i..]
  }

  /** The source's `isSupported`: false without an extension, otherwise
      whether the lower-cased extension, dot dropped, is in `supported`. */
  function IsSupported(filename: string, supported: set<string>): (r: bool)
    ensures (forall k :: 0 < k < |Basename(filename)| ==> Basename(filename)[k] != '.') ==> !r
    ensures supported == {} ==> !r
  {
    var ext := Extension(Basename(filename));
    if ext == [] then false else Lower(ext)[1..] in supported
  }

  /** `isSupported` bound to one set of extensions. */
  function Accepts(supported: set<string>): (accepts: string -> bool)
    ensures forall f :: accepts(f) == IsSupported(f, supported)
  {
    f => IsSupported(f, supported)
  }

  /** A name `stem.e`, with a non-empty final component before the dot and a
      non-empty `e` free of '.' and '/', is supported exactly when `e`,
      lower-cased, is in the set. */
  lemma IsSupportedIff(stem: string, e: string, supported: set<string>)
    requires Basename(stem) != []
    requires e != [] && '.' !in e && '/' !in e
    ensures IsSupported(stem + "." + e, supported) <==> Lower(e) in supported
  {
    var dotted := "." + e;
    BasenameOfDotted(stem, e);
    ExtensionAfterLastDot(Basename(stem), e);
    SupportedByExtension(stem + "." + e, dotted, supported);
    LowerSuffix(dotted, 1);
    assert dotted[1..] == e;
  }

  /** `isSupported` looks only at the extension of the basename. */
  lemma SupportedByExtension(filename: string, ext: string, supported: set<string>)
    requires Extension(Basename(filename)) == ext
    ensures IsSupported(filename, supported) <==> ext != [] && Lower(ext)[1..] in supported
  {
  }

  lemma BasenameOfDotted(stem: string, e: string)
    requires '/' !in e
    ensures Basename(stem + "." + e) == Basename(stem) + "." + e
  {
    var dotted := "." + e;
    assert stem + "." + e == stem + dotted;
    assert Basename(stem) + "." + e == Basename(stem) + dotted;
    BasenameAppend(stem, dotted);
  }

  /** The extension of `b.e` is `.e` when `b` is not empty and `e` holds no
      dot. */
  lemma ExtensionAfterLastDot(b: string, e: string)
    requires b != [] && e != [] && '.' !in e
    ensures Extension(b + "." + e) == "." + e
  {
    var name := b + "." + e;
    assert name[|b|] == '.';
    assert forall k :: |b| < k < |name| ==> name[k] == e[k - |b| - 1];
    LastIndexAt(name, '.', |b|);
    assert |name| >= 3;
    assert name[|b|..] == "." + e;
  }

  /** A `c` with no other `c` after it is the last one. */
  lemma LastIndexAt(s: string, c: char, i: nat)
    requires i < |s| && s[i] == c
    requires forall k :: i < k < |s| ==> s[k] != c
    ensures LastIndexOf(s, c) == Some(i)
  {
  }

  /** Appending text without '/' to a path appends it to the basename. */
  lemma BasenameAppend(path: string, tail: string)
    requires '/' !in tail
    ensures Basename(path + tail) == Basename(path) + tail
  {
    LastIndexOfAppend(path, tail, '/');
    match LastIndexOf(path, '/')
    case None =>
    case Some(i) =>
      assert (path + tail)[i + 1..] == path[i + 1..] + tail;
  }

  /** Text free of `c` appended to `s` leaves the last `c` where it was. */
  lemma {:induction false} LastIndexOfAppend(s: string, t: string, c: char)
    requires c !in t
    ensures LastIndexOf(s + t, c) == LastIndexOf(s, c)
    decreases |t|
  {
    if t == [] {
      assert s + t == s;
    } else {
      var st, t' := s + t, t[..|t| - 1];
      assert st[|st| - 1] == t[|t| - 1] != c;
      assert st[..|st| - 1] == s + t';
      LastIndexOfAppend(s, t', c);
    }
  }

  /** Lower-casing a name changes neither its '/' nor its '.' positions. */
  lemma {:induction false} LastIndexOfLower(s: string, c: char)
    requires c == '/' || c == '.'
    ensures LastIndexOf(Lower(s), c) == LastIndexOf(s, c)
    decreases |s|
  {
    if s != [] {
      assert Lower(s)[..|s| - 1] == Lower(s[..|s| - 1]);
      LastIndexOfLower(s[..|s| - 1], c);
    }
  }

  lemma LowerIdempotent(s: string)
    ensures Lower(Lower(s)) == Lower(s)
  {
  }

  /** Lower-casing commutes with taking the basename. */
  lemma BasenameLower(path: string)
    ensures Basename(Lower(path)) == Lower(Basename(path))
  {
    var lp := Lower(path);
    LastIndexOfLower(path, '/');
    match LastIndexOf(path, '/')
    case None =>
      assert Basename(lp) == lp;
    case Some(i) =>
      assert Basename(lp) == lp[i + 1..];
      LowerSuffix(path, i + 1);
  }

  lemma LowerSuffix(s: string, i: nat)
    requires i <= |s|
    ensures Lower(s)[i..] == Lower(s[i..])
  {
  }

  /** Lower-casing commutes with taking the extension. */
  lemma ExtensionLower(name: string)
    ensures Extension(Lower(name)) == Lower(Extension(name))
  {
    var ln := Lower(name);
    LastIndexOfLower(name, '.');
    assert (ln == ".") == (name == ".") by {
      if |name| == 1 { assert LowerChar(name[0]) == '.' <==> name[0] == '.'; }
    }
    assert (ln == "..") == (name == "..") by {
      if |name| == 2 {
        assert LowerChar(name[0]) == '.' <==> name[0] == '.';
        assert LowerChar(name[1]) == '.' <==> name[1] == '.';
      }
    }
    match LastIndexOf(name, '.')
    case None =>
    case Some(i) =>
      LowerSuffix(name, i);
  }

  /** The check ignores letter case: a name and its lower-cased form are
      accepted or refused together. */
  lemma IsSupportedCaseInsensitive(filename: string, supported: set<string>)
    ensures IsSupported(Lower(filename), supported) == IsSupported(filename, supported)
  {
    var b := Basename(filename);
    BasenameLower(filename);
    ExtensionLower(b);
    var e := Extension(b);
    LowerIdempotent(e);
    assert Extension(Basename(Lower(filename))) == Lower(e);
  }
}
