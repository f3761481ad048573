/** The command-line handling shared by the two escape-room shells
    (decrypt-escape-room-terminal/serverhack.py and terminal.py): the input
    line is stripped, an empty line is skipped, and otherwise the first
    whitespace-separated token is the command and the second, or "." when
    there is none, its argument. `Strip` and `Split` follow Python's
    `str.strip()` and `str.split()` with no arguments. */
module CommandLine {
  import opened Wrappers

  /** Python's `str.isspace()` for one character: the ASCII separators and
      the Unicode space characters. */
  predicate IsSpace(c: char) {
    c == ' ' || ('\t' <= c <= '\r') || ('\U{1c}' <= c <= '\U{1f}')
    || c == '\U{85}' || c == '\U{a0}' || c == '\U{1680}'
    || ('\U{2000}' <= c <= '\U{200a}') || c == '\U{2028}' || c == '\U{2029}'
    || c == '\U{202f}' || c == '\U{205f}' || c == '\U{3000}'
  }

  predicate AllSpace(s: string) {
    forall i :: 0 <= i < |s| ==> IsSpace(s[i])
  }

  /** A word `str.split()` can produce: non-empty, without whitespace. */
  predicate IsToken(t: string) {
    t != [] && forall i :: 0 <= i < |t| ==> !IsSpace(t[i])
  }

  /** The first index at or after `k` that does not hold whitespace. */
  function SpacesFrom(s: string, k: nat): (i: nat)
    requires k <= |s|
    ensures k <= i <= |s| && (forall m :: k <= m < i ==> IsSpace(s[m]))
    ensures i < |s| ==> !IsSpace(s[i])
    decreases |s| - k
  {
    if k < |s| && IsSpace(s[k]) then SpacesFrom(s, k + 1) else k
  }

  /** The start of the run of whitespace that ends at index `k`. */
  function SpacesBefore(s: string, k: nat): (j: nat)
    requires k <= |s|
    ensures j <= k && (forall m :: j <= m < k ==> IsSpace(s[m]))
    ensures j > 0 ==> !IsSpace(s[j - 1])
  {
    if k > 0 && IsSpace(s[k - 1]) then SpacesBefore(s, k - 1) else k
  }

  /** Python's `s.strip()`: what is removed at either end is whitespace,
      and what is kept starts and ends with a non-space character. */
  function Strip(s: string): (r: string)
    ensures exists i, j :: 0 <= i <= j <= |s| && AllSpace(s[..i]) && AllSpace(s[j..]) && r == s[i..j]
    ensures r == [] || (!IsSpace(r[0]) && !IsSpace(r[|r| - 1]))
    ensures r == [] <==> AllSpace(s)
  {
    var i := SpacesFrom(s, 0);
    if i == |s| then
      assert s[..0] == [] && s[0..] == s;
      []
    else
      var j := SpacesBefore(s, |s|);
      assert i < j;
      assert AllSpace(s[..i]) && AllSpace(s[j..]);
      s[i..j]
  }

  /** The length of the maximal whitespace-free prefix of `s`. */
  function WordLength(s: string): (n: nat)
    ensures n <= |s| && (forall i :: 0 <= i < n ==> !IsSpace(s[i]))
    ensures n < |s| ==> IsSpace(s[n])
  {
    if s == [] || IsSpace(s[0]) then 0 else 1 + WordLength(s[1..])
  }

  /** Python's `s.split()`: the maximal runs of non-whitespace, in order. */
  function Split(s: string): (r: seq<string>)
    ensures forall k :: 0 <= k < |r| ==> IsToken(r[k])
    decreases |s|
  {
    if s == [] then []
    else if IsSpace(s[0]) then Split(s[1..])
    else
      var n := WordLength(s);
      [s[..n]] + Split(s[n..])
  }

  /** The tokens joined by single spaces. */
  function JoinWords(ts: seq<string>): string {
    if ts == [] then ""
    else if |ts| == 1 then ts[0]
    else ts[0] + " " + JoinWords(ts[1..])
  }

  /** A line splits into no tokens exactly when it is all whitespace. */
  lemma {:induction false} SplitEmptyIffAllSpace(s: string)
    ensures Split(s) == [] <==> AllSpace(s)
    decreases |s|
  {
    if s != [] && IsSpace(s[0]) {
      SplitEmptyIffAllSpace(s[1..]);
      assert forall i :: 1 <= i < |s| ==> s[i] == s[1..][i - 1];
    }
  }

  /** Leading whitespace does not change the tokens. */
  lemma {:induction false} SplitIgnoresLeadingSpace(w: string, s: string)
    requires AllSpace(w)
    ensures Split(w + s) == Split(s)
    decreases |w|
  {
    if w != [] {
      assert (w + s)[0] == w[0] && IsSpace(w[0]);
      assert (w + s)[1..] == w[1..] + s;
      assert Split(w + s) == Split((w + s)[1..]);
      assert AllSpace(w[1..]) by {
        forall m | 0 <= m < |w| - 1
          ensures IsSpace(w[1..][m])
        {
          assert w[1..][m] == w[m + 1];
        }
      }
      SplitIgnoresLeadingSpace(w[1..], s);
    } else {
      assert w + s == s;
    }
  }

  /** One trailing whitespace character does not change the tokens. */
  lemma {:induction false} SplitIgnoresTrailingSpace(s: string, c: char)
    requires IsSpace(c)
    ensures Split(s + [c]) == Split(s)
    decreases |s|
  {
    if s == [] {
      assert Split([c]) == Split([c][1..]);
    } else if IsSpace(s[0]) {
      assert (s + [c])[1..] == s[1..] + [c];
      SplitIgnoresTrailingSpace(s[1..], c);
    } else {
      var n := WordLength(s);
      WordLengthOfExtension(s, [c]);
      assert (s + [c])[..n] == s[..n];
      assert (s + [c])[n..] == s[n..] + [c];
      SplitIgnoresTrailingSpace(s[n..], c);
    }
  }

  /** Appending text after a whitespace boundary does not change the first
      word. */
  lemma {:induction false} WordLengthOfExtension(s: string, t: string)
    requires WordLength(s) < |s| || t == [] || IsSpace(t[0])
    ensures WordLength(s + t) == WordLength(s)
    decreases |s|
  {
    if s != [] && !IsSpace(s[0]) {
      assert (s + t)[1..] == s[1..] + t;
      WordLengthOfExtension(s[1..], t);
    }
  }

  /** Trailing whitespace does not change the tokens. */
  lemma {:induction false} SplitIgnoresTrailingSpaces(s: string, w: string)
    requires AllSpace(w)
    ensures Split(s + w) == Split(s)
    decreases |w|
  {
    if w != [] {
      var last := w[|w| - 1];
      var init := w[..|w| - 1];
      assert s + w == (s + init) + [last];
      assert IsSpace(last);
      assert AllSpace(init) by {
        forall m | 0 <= m < |init|
          ensures IsSpace(init[m])
        {
          assert init[m] == w[m];
        }
      }
      SplitIgnoresTrailingSpace(s + init, last);
      SplitIgnoresTrailingSpaces(s, init);
      assert Split(s + w) == Split((s + init) + [last]);
    } else {
      assert s + w == s;
    }
  }

  /** Stripping first does not change the tokens. */
  lemma SplitOfStrip(s: string)
    ensures Split(Strip(s)) == Split(s)
  {
    var i, j :| 0 <= i <= j <= |s| && AllSpace(s[..i]) && AllSpace(s[j..]) && Strip(s) == s[i..j];
    assert s == s[..i] + (s[i..j] + s[j..]);
    SplitIgnoresLeadingSpace(s[..i], s[i..j] + s[j..]);
    SplitIgnoresTrailingSpaces(s[i..j], s[j..]);
  }

  /** Splitting tokens joined by single spaces gives the tokens back. */
  lemma {:induction false} SplitJoinWords(ts: seq<string>)
    requires forall k :: 0 <= k < |ts| ==> IsToken(ts[k])
    ensures Split(JoinWords(ts)) == ts
  {
    if |ts| == 1 {
      WordLengthOfExtension(ts[0], []);
      assert ts[0] + [] == ts[0];
      assert ts[0][WordLength(ts[0])..] == [];
    } else if |ts| > 1 {
      var t := ts[0];
      var rest := " " + JoinWords(ts[1..]);
      WordLengthOfExtension(t, rest);
      WordLengthOfExtension(t, []);
      assert t + [] == t;
      var s := t + rest;
      assert s == JoinWords(ts);
      assert s[..|t|] == t && s[|t|..] == rest;
      assert Split(rest) == Split(rest[1..]);
      assert rest[1..] == JoinWords(ts[1..]);
      SplitJoinWords(ts[1..]);
    }
  }

  /** The command and argument of one input line. */
  datatype Request = Request(command: string, arg: string)

  /** The line after `strip()`: `None` for an empty line, which the shells
      skip; otherwise the first token is the command and the second, or "."
      if there is none, the argument. Later tokens are ignored. */
  function ParseLine(line: string): (r: Option<Request>)
    ensures r.None? <==> AllSpace(line)
    ensures r.Some? ==>
      (|Split(line)| > 0 && r.value.command == Split(line)[0]
       && r.value.arg == if |Split(line)| > 1 then Split(line)[1] else ".")
  {
    var x := Strip(line);
    SplitOfStrip(line);
    SplitEmptyIffAllSpace(line);
    SplitEmptyIffAllSpace(x);
    if x == "" then None
    else
      var ts := Split(x);
      Some(Request(ts[0], if |ts| == 1 then "." else ts[1]))
  }

  /** A command alone takes "." as its argument. */
  lemma ParseCommandAlone(command: string)
    requires IsToken(command)
    ensures ParseLine(command) == Some(Request(command, "."))
  {
    SplitJoinWords([command]);
    assert !IsSpace(command[0]);
  }

  /** A command followed by one argument takes that argument. */
  lemma ParseCommandWithArgument(command: string, arg: string)
    requires IsToken(command) && IsToken(arg)
    ensures ParseLine(command + " " + arg) == Some(Request(command, arg))
  {
    var line := command + " " + arg;
    assert JoinWords([command, arg]) == line by {
      assert [command, arg][1..] == [arg];
    }
    SplitJoinWords([command, arg]);
    assert line[0] == command[0] && !IsSpace(line[0]);
    assert !AllSpace(line);
  }

  /** A token has no whitespace to strip. */
  lemma StripToken(t: string)
    requires IsToken(t)
    ensures Strip(t) == t
  {
    var i, j :| 0 <= i <= j <= |t| && AllSpace(t[..i]) && AllSpace(t[j..]) && Strip(t) == t[i..j];
    if i > 0 {
      assert t[..i][0] == t[0];
    }
    if j < |t| {
      assert t[j..][0] == t[j];
    }
  }
}
