/** The pieces of `java.lang.String`, `java.util.regex` and
    `java.io.BufferedReader` behaviour that the save-file codec relies on:
    character classes, joining, a lazy `open.*?close` regex search,
    `substring`, `split` with limit 0, and line splitting. */
module JavaText {
  import opened Wrappers

  /** The characters Java's regex `.` does not match (no DOTALL flag). */
  predicate IsLineTerminator(c: char) {
    c == '\n' || c == '\r' || c == '\U{85}' || c == '\U{2028}' || c == '\U{2029}'
  }

  /** Java's regex class `\s`: `[ \t\n\x0B\f\r]`. */
  predicate IsSpace(c: char) {
    c == ' ' || c == '\t' || c == '\n' || c == '\U{0B}' || c == '\U{0C}' || c == '\r'
  }

  /** `String.join(sep, parts)`. */
  function Join(parts: seq<string>, sep: string): string
  {
    if |parts| == 0 then ""
    else if |parts| == 1 then parts[0]
    else parts[0] + sep + Join(parts[1..], sep)
  }

  predicate StartsWithAt(s: string, i: nat, lit: string) {
    i + |lit| <= |s| && s[i..i + |lit|] == lit
  }

  /** No character in `s[from..to]` is `close` or a line terminator. */
  predicate PlainBetween(s: string, from: nat, to: nat, close: char)
    requires from <= to <= |s|
  {
    forall t :: from <= t < to ==> s[t] != close && !IsLineTerminator(s[t])
  }

  predicate NoTerminator(s: string) {
    forall c :: c in s ==> !IsLineTerminator(c)
  }

  lemma {:induction false} JoinNoTerminator(parts: seq<string>, sep: string)
    requires NoTerminator(sep)
    requires forall i :: 0 <= i < |parts| ==> NoTerminator(parts[i])
    ensures NoTerminator(Join(parts, sep))
  {
    if |parts| > 1 {
      JoinNoTerminator(parts[1..], sep);
      var j := Join(parts, sep);
      assert j == parts[0] + sep + Join(parts[1..], sep);
      assert NoTerminator(parts[0]);
    }
  }

  // ---------------------------------------------------------------------
  // Regex search for `open.*?close` (open a literal, close one literal
  // character), as `Matcher.find()` performs it.

  /** The first position at or after `k` holding `close` or a line
      terminator: where a lazy `.*?close` either completes or fails. */
  function StopFrom(s: string, k: nat, close: char): (r: Option<nat>)
    requires k <= |s|
    ensures r.Some? ==> k <= r.value < |s| && PlainBetween(s, k, r.value, close)
    ensures r.Some? ==> s[r.value] == close || IsLineTerminator(s[r.value])
    ensures r.None? ==> PlainBetween(s, k, |s|, close)
    decreases |s| - k
  {
    if k == |s| then None
    else if s[k] == close || IsLineTerminator(s[k]) then Some(k)
    else StopFrom(s, k + 1, close)
  }

  /** The end (exclusive) of the match of `open.*?close` that starts
      exactly at `i`, if there is one. */
  function MatchAt(s: string, i: nat, open: string, close: char): (r: Option<nat>)
    ensures r.Some? ==> StartsWithAt(s, i, open)
    ensures r.Some? ==> i + |open| < r.value <= |s| && s[r.value - 1] == close
    ensures r.Some? ==> PlainBetween(s, i + |open|, r.value - 1, close)
  {
    if StartsWithAt(s, i, open) then
      match StopFrom(s, i + |open|, close)
      case Some(j) => if s[j] == close then Some(j + 1) else None
      case None => None
    else None
  }

  /** The leftmost match at or after `i`, as (start, end). */
  function FindFrom(s: string, i: nat, open: string, close: char): (r: Option<(nat, nat)>)
    ensures r.Some? ==> i <= r.value.0 && MatchAt(s, r.value.0, open, close) == Some(r.value.1)
    ensures r.Some? ==> forall t :: i <= t < r.value.0 ==> MatchAt(s, t, open, close).None?
    ensures r.None? ==> forall t :: i <= t <= |s| ==> MatchAt(s, t, open, close).None?
    decreases |s| + 1 - i
  {
    if i > |s| then None
    else
      match MatchAt(s, i, open, close)
      case Some(e) => Some((i, e))
      case None => FindFrom(s, i + 1, open, close)
  }

  /** `Pattern.compile(open + ".*?" + close).matcher(s).find()`. */
  function Find(s: string, open: string, close: char): Option<(nat, nat)>
  {
    FindFrom(s, 0, open, close)
  }

  /** A match that starts at `k` is the one found when no occurrence of
      `open` starts earlier. */
  lemma FindLeftmost(s: string, k: nat, open: string, close: char, e: nat)
    requires forall t :: 0 <= t < k ==> !StartsWithAt(s, t, open)
    requires MatchAt(s, k, open, close) == Some(e)
    ensures Find(s, open, close) == Some((k, e))
  {
  }

  /** `open + body + close` at `k`, with no `close` or line terminator
      inside `body`, is a complete lazy match. */
  lemma MatchSpan(s: string, k: nat, open: string, body: string, close: char)
    requires k + |open| + |body| < |s|
    requires s[k..k + |open| + |body| + 1] == open + body + [close]
    requires forall t :: 0 <= t < |body| ==> body[t] != close && !IsLineTerminator(body[t])
    ensures MatchAt(s, k, open, close) == Some(k + |open| + |body| + 1)
  {
    var m := s[k..k + |open| + |body| + 1];
    assert s[k..k + |open|] == m[..|open|] == open;
    var j := k + |open| + |body|;
    assert s[j] == m[|open| + |body|] == close;
    forall t | k + |open| <= t < j
      ensures s[t] != close && !IsLineTerminator(s[t])
    {
      assert s[t] == m[t - k] == body[t - k - |open|];
    }
    assert StopFrom(s, k + |open|, close) == Some(j);
  }

  /** `String.substring(begin, end)`; `None` is the
      `StringIndexOutOfBoundsException`. */
  function Substring(s: string, begin: int, end: int): (r: Option<string>)
    ensures r.Some? <==> 0 <= begin <= end <= |s|
    ensures r.Some? ==> |r.value| == end - begin
    ensures r.Some? ==> forall t :: 0 <= t < |r.value| ==> r.value[t] == s[begin + t]
  {
    if 0 <= begin <= end <= |s| then Some(s[begin..end]) else None
  }

  // ---------------------------------------------------------------------
  // `String.split(regex)` (limit 0) for the two delimiters the codec uses.

  /** `\s+` and `,\s+`. */
  datatype Delimiter = Blanks | CommaBlanks

  /** The text the writer puts between two tokens for each delimiter. */
  function DelimText(d: Delimiter): string {
    match d
    case Blanks => "\t"
    case CommaBlanks => ", "
  }

  /** The end of the run of `\s` characters that starts at `k` (greedy `+`). */
  function BlankEnd(s: string, k: nat): (e: nat)
    requires k <= |s|
    ensures k <= e <= |s|
    ensures forall t :: k <= t < e ==> IsSpace(s[t])
    ensures e < |s| ==> !IsSpace(s[e])
    decreases |s| - k
  {
    if k < |s| && IsSpace(s[k]) then BlankEnd(s, k + 1) else k
  }

  /** The end of the delimiter match starting exactly at `i`, if any. */
  function DelimAt(d: Delimiter, s: string, i: nat): (r: Option<nat>)
    ensures r.Some? ==> i < r.value <= |s|
    ensures d == Blanks ==> (r.Some? <==> i < |s| && IsSpace(s[i]))
    ensures d == CommaBlanks ==> (r.Some? <==> i + 1 < |s| && s[i] == ',' && IsSpace(s[i + 1]))
  {
    match d
    case Blanks =>
      if i < |s| && IsSpace(s[i]) then Some(BlankEnd(s, i)) else None
    case CommaBlanks =>
      if i + 1 < |s| && s[i] == ',' && IsSpace(s[i + 1]) then Some(BlankEnd(s, i + 1)) else None
  }

  /** The leftmost delimiter match at or after `k`, as (start, end). */
  function NextDelim(d: Delimiter, s: string, k: nat): (r: Option<(nat, nat)>)
    requires k <= |s|
    ensures r.Some? ==> k <= r.value.0 < |s| && DelimAt(d, s, r.value.0) == Some(r.value.1)
    ensures r.Some? ==> forall t :: k <= t < r.value.0 ==> DelimAt(d, s, t).None?
    ensures r.None? ==> forall t :: k <= t < |s| ==> DelimAt(d, s, t).None?
    decreases |s| - k
  {
    if k == |s| then None
    else
      match DelimAt(d, s, k)
      case Some(e) => Some((k, e))
      case None => NextDelim(d, s, k + 1)
  }

  /** The substrings between successive delimiter matches, the text
      after the last match included. */
  function Pieces(d: Delimiter, s: string): (r: seq<string>)
    ensures 0 < |r|
    decreases |s|
  {
    match NextDelim(d, s, 0)
    case None => [s]
    case Some((a, e)) => [s[..a]] + Pieces(d, s[e..])
  }

  function DropTrailingEmpty(ps: seq<string>): (r: seq<string>)
    ensures |r| <= |ps| && r == ps[..|r|]
    ensures 0 < |r| ==> r[|r| - 1] != ""
    ensures forall t :: |r| <= t < |ps| ==> ps[t] == ""
  {
    if 0 < |ps| && ps[|ps| - 1] == "" then DropTrailingEmpty(ps[..|ps| - 1]) else ps
  }

  /** `s.split(regex)`: with no match the whole string is the only piece;
      otherwise trailing empty pieces are removed. A match at position 0
      yields a leading empty piece. */
  function Split(d: Delimiter, s: string): seq<string>
  {
    if NextDelim(d, s, 0).None? then [s] else DropTrailingEmpty(Pieces(d, s))
  }

  /** A token a writer may put between delimiters: non-empty, without
      blanks and without commas. */
  predicate PlainToken(t: string) {
    0 < |t| && forall i :: 0 <= i < |t| ==> !IsSpace(t[i]) && t[i] != ','
  }

  lemma NoDelimInToken(d: Delimiter, t: string)
    requires PlainToken(t)
    ensures NextDelim(d, t, 0).None?
  {
    forall i | 0 <= i < |t|
      ensures DelimAt(d, t, i).None?
    {
    }
  }

  /** The first delimiter of `t + DelimText(d) + rest` is the one written
      after `t`. */
  lemma FirstDelimAfterToken(d: Delimiter, t: string, rest: string)
    requires PlainToken(t) && 0 < |rest| && !IsSpace(rest[0])
    ensures NextDelim(d, t + DelimText(d) + rest, 0) == Some((|t|, |t| + |DelimText(d)|))
  {
    var s := t + DelimText(d) + rest;
    NoDelimBeforeSeparator(d, t, rest);
    DelimAtSeparator(d, t, rest);
    var r := NextDelim(d, s, 0);
    assert r.Some? && r.value.0 == |t|;
  }

  lemma NoDelimBeforeSeparator(d: Delimiter, t: string, rest: string)
    requires PlainToken(t)
    ensures forall i :: 0 <= i < |t| ==> DelimAt(d, t + DelimText(d) + rest, i).None?
  {
    var s := t + DelimText(d) + rest;
    forall i | 0 <= i < |t|
      ensures DelimAt(d, s, i).None?
    {
      assert s[i] == t[i];
      if d == CommaBlanks {
        assert s[i] != ',';
      }
    }
  }

  lemma DelimAtSeparator(d: Delimiter, t: string, rest: string)
    requires 0 < |rest| && !IsSpace(rest[0])
    ensures DelimAt(d, t + DelimText(d) + rest, |t|) == Some(|t| + |DelimText(d)|)
  {
    var s := t + DelimText(d) + rest;
    var n := |DelimText(d)|;
    assert s[|t| + n] == rest[0];
    assert BlankEnd(s, |t| + n) == |t| + n;
    if d == Blanks {
      assert s[|t|] == '\t';
    } else {
      assert s[|t|] == ',' && s[|t| + 1] == ' ';
    }
  }

  lemma {:induction false} PiecesOfJoin(d: Delimiter, toks: seq<string>)
    requires 0 < |toks|
    requires forall i :: 0 <= i < |toks| ==> PlainToken(toks[i])
    ensures Pieces(d, Join(toks, DelimText(d))) == toks
    decreases |toks|
  {
    if |toks| == 1 {
      NoDelimInToken(d, toks[0]);
    } else {
      var t := toks[0];
      var rest := Join(toks[1..], DelimText(d));
      JoinStartsWithToken(toks[1..], DelimText(d));
      assert Join(toks, DelimText(d)) == t + DelimText(d) + rest;
      FirstDelimAfterToken(d, t, rest);
      var s := t + DelimText(d) + rest;
      assert s[..|t|] == t;
      assert s[|t| + |DelimText(d)|..] == rest;
      PiecesOfJoin(d, toks[1..]);
      assert toks == [t] + toks[1..];
    }
  }

  lemma {:induction false} JoinStartsWithToken(toks: seq<string>, sep: string)
    requires 0 < |toks|
    requires forall i :: 0 <= i < |toks| ==> PlainToken(toks[i])
    ensures 0 < |toks[0]|
    ensures 0 < |Join(toks, sep)| && Join(toks, sep)[0] == toks[0][0]
  {
    assert PlainToken(toks[0]);
    if |toks| > 1 {
      assert Join(toks, sep) == toks[0] + (sep + Join(toks[1..], sep));
    }
  }

  /** Splitting re-reads exactly the tokens a writer joined. */
  lemma SplitJoin(d: Delimiter, toks: seq<string>)
    requires 0 < |toks|
    requires forall i :: 0 <= i < |toks| ==> PlainToken(toks[i])
    ensures Split(d, Join(toks, DelimText(d))) == toks
  {
    PiecesOfJoin(d, toks);
    if |toks| == 1 {
      NoDelimInToken(d, toks[0]);
    } else {
      JoinHasDelim(d, toks);
      assert PlainToken(toks[|toks| - 1]);
      assert toks[|toks| - 1] != "";
    }
  }

  /** Two or more joined tokens contain a delimiter match. */
  lemma JoinHasDelim(d: Delimiter, toks: seq<string>)
    requires 1 < |toks|
    requires forall i :: 0 <= i < |toks| ==> PlainToken(toks[i])
    ensures NextDelim(d, Join(toks, DelimText(d)), 0).Some?
  {
    JoinStartsWithToken(toks[1..], DelimText(d));
    assert Join(toks, DelimText(d)) == toks[0] + DelimText(d) + Join(toks[1..], DelimText(d));
    FirstDelimAfterToken(d, toks[0], Join(toks[1..], DelimText(d)));
  }

  // ---------------------------------------------------------------------
  // `BufferedReader.readLine`, as `Files.lines` uses it.

  /** The first `\n` or `\r` at or after `k`, or `|s|`. */
  function LineEnd(s: string, k: nat): (e: nat)
    requires k <= |s|
    ensures k <= e <= |s|
    ensures forall t :: k <= t < e ==> s[t] != '\n' && s[t] != '\r'
    ensures e < |s| ==> s[e] == '\n' || s[e] == '\r'
    decreases |s| - k
  {
    if k == |s| || s[k] == '\n' || s[k] == '\r' then k else LineEnd(s, k + 1)
  }

  /** The lines of a text: each ends at `\n`, `\r` or `\r\n`; a last line
      without terminator counts when it is not empty. */
  function Lines(s: string): seq<string>
    decreases |s|
  {
    if |s| == 0 then []
    else
      var k := LineEnd(s, 0);
      if k == |s| then [s]
      else
        var next := if s[k] == '\r' && k + 1 < |s| && s[k + 1] == '\n' then k + 2 else k + 1;
        [s[..k]] + Lines(s[next..])
  }

  /** Every line followed by `'\n'`, as a writer appends them. */
  function Terminated(ls: seq<string>): string
  {
    if |ls| == 0 then "" else ls[0] + "\n" + Terminated(ls[1..])
  }

  predicate OneLine(l: string) {
    forall i :: 0 <= i < |l| ==> l[i] != '\n' && l[i] != '\r'
  }

  lemma OneLineAppend(a: string, b: string)
    requires OneLine(a) && OneLine(b)
    ensures OneLine(a + b)
  {
    forall i | 0 <= i < |a + b| ensures (a + b)[i] != '\n' && (a + b)[i] != '\r' {
      if i < |a| {
        assert (a + b)[i] == a[i];
      } else {
        assert (a + b)[i] == b[i - |a|];
      }
    }
  }

  lemma OneLineOf(s: string)
    requires NoTerminator(s)
    ensures OneLine(s)
  {
    forall i | 0 <= i < |s| ensures s[i] != '\n' && s[i] != '\r' {
      assert s[i] in s;
    }
  }

  /** Reading back the lines a writer terminated with `'\n'` gives them
      all, in order, and nothing more. */
  lemma {:induction false} LinesOfTerminated(ls: seq<string>)
    requires forall i :: 0 <= i < |ls| ==> OneLine(ls[i])
    ensures Lines(Terminated(ls)) == ls
  {
    if |ls| > 0 {
      var l := ls[0];
      var s := Terminated(ls);
      assert s == l + "\n" + Terminated(ls[1..]);
      assert s[|l|] == '\n';
      assert forall t :: 0 <= t < |l| ==> s[t] == l[t];
      assert LineEnd(s, 0) == |l|;
      assert s[..|l|] == l;
      assert s[|l| + 1..] == Terminated(ls[1..]);
      LinesOfTerminated(ls[1..]);
      assert ls == [l] + ls[1..];
    }
  }
}
