/** The string operations the player borrows from the C and C++ libraries,
    as functions on `string`: `std::getline` over a file, `operator>>` into a
    `std::string`, `find` followed by `erase` (the player's `remove_sub`),
    `basename` (in its GNU form), and `strtok` over carriage returns and newlines. */
module Text {
  import opened Common

  // ---------------------------------------------------------------------
  // Lines of a text file, as std::getline yields them
  // ---------------------------------------------------------------------

  predicate NoNewline(s: string) {
    '\n' !in s
  }

  /** A text that is empty or ends with a newline: appending to it starts a
      new line. */
  predicate Terminated(s: string) {
    s == [] || s[|s| - 1] == '\n'
  }

  /** Index of the first newline in `s`, or `|s|` when there is none. */
  function NewlineAt(s: string): (i: nat)
    ensures i <= |s|
    ensures i < |s| ==> s[i] == '\n'
    ensures forall k :: 0 <= k < i ==> s[k] != '\n'
  {
    if s == [] || s[0] == '\n' then 0 else 1 + NewlineAt(s[1..])
  }

  /** The lines `std::getline` reads from a file holding `s`: the text
      between newlines, a last line without a newline included, and no empty
      line after a final newline. */
  function Lines(s: string): (ls: seq<string>)
    ensures forall k :: 0 <= k < |ls| ==> NoNewline(ls[k])
    decreases |s|
  {
    if s == [] then []
    else
      var i := NewlineAt(s);
      if i == |s| then [s] else [s[..i]] + Lines(s[i + 1..])
  }

  /** The text `std::endl` produces when each line is written in turn. */
  function Unlines(ls: seq<string>): (s: string)
    ensures Terminated(s)
  {
    if ls == [] then "" else ls[0] + "\n" + Unlines(ls[1..])
  }

  lemma {:induction false} UnlinesAppend(a: seq<string>, b: seq<string>)
    ensures Unlines(a + b) == Unlines(a) + Unlines(b)
  {
    if a == [] {
      assert a + b == b;
    } else {
      assert (a + b)[1..] == a[1..] + b;
      UnlinesAppend(a[1..], b);
    }
  }

  /** Reading back what was written line by line gives the same lines. */
  lemma {:induction false} LinesOfUnlines(ls: seq<string>)
    requires forall k :: 0 <= k < |ls| ==> NoNewline(ls[k])
    ensures Lines(Unlines(ls)) == ls
  {
    if ls != [] {
      var head, tail := ls[0], Unlines(ls[1..]);
      var s := head + "\n" + tail;
      assert s == Unlines(ls);
      var i := NewlineAt(s);
      assert s[|head|] == '\n';
      assert forall k :: 0 <= k < |head| ==> s[k] == head[k];
      assert i == |head|;
      assert s[..i] == head;
      assert s[i + 1..] == tail;
      LinesOfUnlines(ls[1..]);
    }
  }

  /** A text that ends with a newline is exactly its lines written back. */
  lemma {:induction false} UnlinesOfLines(s: string)
    requires Terminated(s)
    ensures Unlines(Lines(s)) == s
    decreases |s|
  {
    if s != [] {
      var i := NewlineAt(s);
      assert i < |s| by { assert s[|s| - 1] == '\n'; }
      var line, rest := s[..i], s[i + 1..];
      assert Terminated(rest) by {
        if rest != [] { assert rest[|rest| - 1] == s[|s| - 1]; }
      }
      LinesAtNewline(s, i);
      UnlinesOfLines(rest);
      UnlinesCons(line, Lines(rest));
      SplitAtNewline(s, i);
    }
  }

  /** A text with a newline reads as the line before it, then the lines of
      what follows. */
  lemma LinesAtNewline(s: string, i: nat)
    requires s != [] && i == NewlineAt(s) && i < |s|
    ensures Lines(s) == [s[..i]] + Lines(s[i + 1..])
  {
  }

  lemma UnlinesCons(line: string, ls: seq<string>)
    ensures Unlines([line] + ls) == line + "\n" + Unlines(ls)
  {
    assert ([line] + ls)[1..] == ls;
  }

  lemma SplitAtNewline(s: string, i: nat)
    requires i < |s| && s[i] == '\n'
    ensures s == s[..i] + "\n" + s[i + 1..]
  {
    assert s == s[..i] + [s[i]] + s[i + 1..];
  }

  /** Appending whole lines to a text that ends with a newline appends those
      lines to what `std::getline` reads. */
  lemma LinesAfterAppend(s: string, ls: seq<string>)
    requires Terminated(s)
    requires forall k :: 0 <= k < |ls| ==> NoNewline(ls[k])
    ensures Lines(s + Unlines(ls)) == Lines(s) + ls
  {
    var old_ := Lines(s);
    UnlinesOfLines(s);
    UnlinesAppend(old_, ls);
    LinesOfUnlines(old_ + ls);
  }

  // ---------------------------------------------------------------------
  // The first word of a line, as `buf >> key` extracts it
  // ---------------------------------------------------------------------

  /** `isspace` in the "C" locale. */
  predicate IsSpace(c: char) {
    c == ' ' || c == '\t' || c == '\n' || c == '\r' || c as int == 11 || c as int == 12
  }

  /** The run of non-space characters at the front of `s`. */
  function TakeWord(s: string): (w: string)
    ensures |w| <= |s| && w == s[..|w|]
    ensures forall k :: 0 <= k < |w| ==> !IsSpace(w[k])
    ensures |w| < |s| ==> IsSpace(s[|w|])
  {
    if s == [] || IsSpace(s[0]) then [] else [s[0]] + TakeWord(s[1..])
  }

  /** The number of white-space characters at the front of `s`. */
  function LeadingSpace(s: string): (n: nat)
    ensures n <= |s|
    ensures forall k :: 0 <= k < n ==> IsSpace(s[k])
    ensures n < |s| ==> !IsSpace(s[n])
  {
    if s == [] || !IsSpace(s[0]) then 0 else 1 + LeadingSpace(s[1..])
  }

  /** What `buf >> key` leaves in a cleared `key`: leading white space is
      skipped and the next word is read; a line of white space leaves it
      empty. */
  function FirstToken(line: string): (t: string)
    ensures forall k :: 0 <= k < |t| ==> !IsSpace(t[k])
    ensures line != [] && !IsSpace(line[0]) ==> t == TakeWord(line)
  {
    if line == [] then []
    else if IsSpace(line[0]) then FirstToken(line[1..])
    else TakeWord(line)
  }

  /** The key is the word after the leading white space, and it is empty
      exactly when the line holds nothing but white space. */
  lemma {:induction false} FirstTokenSkipsSpace(line: string)
    ensures FirstToken(line) == TakeWord(line[LeadingSpace(line)..])
    ensures FirstToken(line) == [] <==> forall k :: 0 <= k < |line| ==> IsSpace(line[k])
  {
    if line != [] && IsSpace(line[0]) {
      FirstTokenSkipsSpace(line[1..]);
      assert line[1..][LeadingSpace(line[1..])..] == line[LeadingSpace(line)..];
      assert forall k :: 1 <= k < |line| ==> line[k] == line[1..][k - 1];
    }
  }

  /** A line made of a word, a space and anything else has that word as its
      key. */
  lemma FirstTokenOfWord(w: string, rest: string)
    requires w != [] && forall k :: 0 <= k < |w| ==> !IsSpace(w[k])
    ensures FirstToken(w + " " + rest) == w
  {
    var s := w + " " + rest;
    assert s[0] == w[0];
    var t := TakeWord(s);
    assert forall k :: 0 <= k < |w| ==> s[k] == w[k];
    assert s[|w|] == ' ';
    assert |t| == |w|;
    assert t == s[..|w|] == w;
  }

  // ---------------------------------------------------------------------
  // remove_sub: erase the first occurrence of a substring
  // ---------------------------------------------------------------------

  predicate OccursAt(a: string, b: string, p: nat) {
    p + |b| <= |a| && a[p..p + |b|] == b
  }

  /** `b` occurs at `p` and nowhere to the left of it. */
  predicate FirstOccurrence(a: string, b: string, p: nat) {
    OccursAt(a, b, p) && forall q :: 0 <= q < p ==> !OccursAt(a, b, q)
  }

  /** `std::string::find(b, from)`: the leftmost occurrence at or after
      `from`. */
  function FindFrom(a: string, b: string, from: nat): (r: Option<nat>)
    ensures r.Some? ==> from <= r.value && OccursAt(a, b, r.value)
    ensures r.Some? ==> forall q :: from <= q < r.value ==> !OccursAt(a, b, q)
    ensures r.None? ==> forall q :: from <= q ==> !OccursAt(a, b, q)
    decreases |a| - from
  {
    if from + |b| > |a| then None
    else if a[from..from + |b|] == b then Some(from)
    else FindFrom(a, b, from + 1)
  }

  /** The player's `remove_sub(a, b)`: erases the first occurrence of `b`
      from `a`, and returns `a` unchanged when `b` does not occur. */
  function RemoveSub(a: string, b: string): (r: string)
    ensures forall p: nat {:trigger FirstOccurrence(a, b, p)} ::
      FirstOccurrence(a, b, p) ==> r == a[..p] + a[p + |b|..]
    ensures (forall p: nat :: !OccursAt(a, b, p)) ==> r == a
  {
    match FindFrom(a, b, 0)
    case None => a
    case Some(p) => a[..p] + a[p + |b|..]
  }

  /** A line that starts with a prefix loses exactly that prefix. */
  lemma RemoveSubPrefix(b: string, rest: string)
    ensures RemoveSub(b + rest, b) == rest
  {
    var a := b + rest;
    assert a[0..|b|] == b;
    assert FirstOccurrence(a, b, 0);
    assert a[|b|..] == rest;
  }

  // ---------------------------------------------------------------------
  // basename
  // ---------------------------------------------------------------------

  /** The position of the last `c` in `s`. */
  function LastIndexOf(s: string, c: char): (r: Option<nat>)
    ensures r.Some? ==> r.value < |s| && s[r.value] == c
    ensures r.Some? ==> forall k :: r.value < k < |s| ==> s[k] != c
    ensures r.None? ==> forall k :: 0 <= k < |s| ==> s[k] != c
  {
    if s == [] then None
    else if s[|s| - 1] == c then Some(|s| - 1)
    else LastIndexOf(s[..|s| - 1], c)
  }

  /** `basename` as the GNU version computes it: the text after the last
      '/', which is empty for a path that ends in '/'. It is also what
      `std::filesystem::path::filename` returns for such paths. */
  function Basename(path: string): (name: string)
    ensures |name| <= |path| && name == path[|path| - |name|..]
    ensures '/' !in name
    ensures '/' !in path ==> name == path
    ensures name != path ==> path[|path| - |name| - 1] == '/'
  {
    match LastIndexOf(path, '/')
    case None => path
    case Some(i) => path[i + 1..]
  }

  // ---------------------------------------------------------------------
  // strtok(data, "\r\n")
  // ---------------------------------------------------------------------

  predicate IsDelimiter(c: char) {
    c == '\r' || c == '\n'
  }

  /** What `strtok` can return: a non-empty run of non-delimiters. */
  predicate IsToken(t: string) {
    t != [] && forall k :: 0 <= k < |t| ==> !IsDelimiter(t[k])
  }

  /** Length of the run of non-delimiters at the front of `s`. */
  function RunLength(s: string): (n: nat)
    ensures n <= |s|
    ensures forall k :: 0 <= k < n ==> !IsDelimiter(s[k])
    ensures n < |s| ==> IsDelimiter(s[n])
  {
    if s == [] || IsDelimiter(s[0]) then 0 else 1 + RunLength(s[1..])
  }

  /** The tokens successive `strtok(…, "\r\n")` calls return, in order:
      runs of delimiters separate tokens and never yield an empty one. */
  function Tokens(s: string): (ts: seq<string>)
    ensures forall k :: 0 <= k < |ts| ==> IsToken(ts[k])
    decreases |s|
  {
    if s == [] then []
    else if IsDelimiter(s[0]) then Tokens(s[1..])
    else
      var n := RunLength(s);
      [s[..n]] + Tokens(s[n..])
  }

  /** A drop list as the `text/uri-list` convention writes it: one entry per
      line, each ended by CR LF. */
  function CrlfLines(ts: seq<string>): string
  {
    if ts == [] then "" else ts[0] + "\r\n" + CrlfLines(ts[1..])
  }

  /** Tokenising a CR LF list gives back its entries. */
  lemma {:induction false} TokensOfCrlfLines(ts: seq<string>)
    requires forall k :: 0 <= k < |ts| ==> IsToken(ts[k])
    ensures Tokens(CrlfLines(ts)) == ts
  {
    if ts != [] {
      var t, tail := ts[0], CrlfLines(ts[1..]);
      var s := t + "\r\n" + tail;
      assert s == CrlfLines(ts);
      assert IsToken(t);
      assert s[0] == t[0];
      var n := RunLength(s);
      assert forall k :: 0 <= k < |t| ==> s[k] == t[k];
      assert s[|t|] == '\r';
      assert n == |t|;
      assert s[..n] == t;
      var r := s[n..];
      assert r == "\r\n" + tail;
      assert r[1..] == "\n" + tail;
      assert r[1..][1..] == tail;
      assert Tokens(r) == Tokens(r[1..]) == Tokens(tail);
      TokensOfCrlfLines(ts[1..]);
    }
  }
}
