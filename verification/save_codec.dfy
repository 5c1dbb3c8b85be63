/** The save file (`EngineRuntime.saveState` / `loadState` / `parseLine`):
    one `Block.toString()` line per stored block, and a parser that reads
    the three fields back with a lazy regex search, a fixed-offset
    substring, a split and `Integer.parseInt`. File access is not modelled:
    saving yields the file's text, loading is given the file's text or the
    fact that reading it failed. */
module SaveCodec {
  import opened Wrappers
  import opened JavaInts
  import opened JavaText
  import opened Blocks
  import opened BlockStore

  /** The exceptions a load can end with. `PatternNotFound` is the
      "Something wrong with state data" exception, `SubstringOutOfRange`
      the `StringIndexOutOfBoundsException` of `substring`, `NumberFormat`
      the `NumberFormatException` of `parseInt`, `MissingId` the
      `ArrayIndexOutOfBoundsException` of `[0]` on an empty id field,
      `StateCorruption` the "state corruption" exception, and
      `MalformedInput` the `UncheckedIOException` `Files.lines` raises on
      bytes that are not UTF-8, which the `catch (IOException)` does not
      catch. */
  datatype LoadError =
    | PatternNotFound
    | SubstringOutOfRange
    | NumberFormat(token: string)
    | MissingId
    | StateCorruption
    | MalformedInput

  const CordOpen: string := "cord=["
  const IdOpen: string := "id="
  const SideOpen: string := "sideIds=["

  /** `Integer.parseInt` on each token in turn; the first bad token aborts. */
  function ParseInts(toks: seq<string>): (r: Result<seq<int32>, LoadError>)
    ensures r.Ok? ==> |r.value| == |toks|
  {
    if |toks| == 0 then Ok([])
    else
      match ParseInt(toks[0])
      case None => Err(NumberFormat(toks[0]))
      case Some(v) =>
        var rest :- ParseInts(toks[1..]);
        Ok([v] + rest)
  }

  /** A successful parse holds every token's value in order; a failed one
      names a token `parseInt` rejects. */
  lemma {:induction false} ParseIntsMeaning(toks: seq<string>)
    ensures var r := ParseInts(toks);
            && (r.Ok? ==> forall i :: 0 <= i < |toks| ==> ParseInt(toks[i]) == Some(r.value[i]))
            && (r.Err? ==> exists i :: 0 <= i < |toks| && ParseInt(toks[i]).None? && r.error == NumberFormat(toks[i]))
  {
    if |toks| > 0 && ParseInt(toks[0]).Some? {
      ParseIntsMeaning(toks[1..]);
      assert forall i :: 1 <= i < |toks| ==> toks[1..][i - 1] == toks[i];
      var r := ParseInts(toks);
      if r.Err? {
        var rest := ParseInts(toks[1..]);
        var i :| 0 <= i < |toks[1..]| && ParseInt(toks[1..][i]).None? && rest.error == NumberFormat(toks[1..][i]);
        assert ParseInt(toks[i + 1]).None? && r.error == NumberFormat(toks[i + 1]);
      }
    }
  }

  /** `parseLine(line, Pattern.compile(open + ".*?" + close), st, delta, split)`:
      the first match, cut by `st` characters at the front and `delta` at
      the back, split, and every piece parsed. */
  function ParseField(line: string, open: string, close: char, st: int, delta: int, d: Delimiter)
    : (r: Result<seq<int32>, LoadError>)
    ensures Find(line, open, close).None? ==> r == Err(PatternNotFound)
  {
    var found := Find(line, open, close);
    if found.None? then Err(PatternNotFound)
    else CutField(line[found.value.0..found.value.1], st, delta, d)
  }

  /** The matched group cut and parsed. */
  function CutField(group: string, st: int, delta: int, d: Delimiter): (r: Result<seq<int32>, LoadError>)
    ensures !(0 <= st <= |group| - delta) ==> r == Err(SubstringOutOfRange)
  {
    var cut := Substring(group, st, |group| - delta);
    if cut.None? then Err(SubstringOutOfRange) else ParseInts(Split(d, cut.value))
  }

  /** The three fields of one save line, parsed in the source's order,
      then the field-count check and the new block (all faces visible). */
  function ParseLine(line: string): (r: Result<Block, LoadError>)
    ensures Find(line, CordOpen, ']').None? ==> r == Err(PatternNotFound)
    ensures Find(line, IdOpen, ',').None? || Find(line, SideOpen, ']').None? ==> r.Err?
    ensures r.Ok? ==> WellFormed(r.value) && r.value.sideRender == AllVisible
  {
    var cords :- ParseField(line, CordOpen, ']', 7, 2, Blanks);
    var ids :- ParseField(line, IdOpen, ',', 3, 1, Blanks);
    if |ids| == 0 then Err(MissingId)
    else
      var sideIds :- ParseField(line, SideOpen, ']', 9, 1, CommaBlanks);
      if |cords| != 3 || |sideIds| != FaceCount then Err(StateCorruption)
      else Ok(NewBlock(Cell(cords[0], cords[1], cords[2]), ids[0], sideIds).value)
  }

  /** Each line's parse. Parsing a line does not depend on the map, so
      the source's parse-then-put loop is the puts of these results in
      order, stopping at the first failure. */
  function ParseAll(lines: seq<string>): (rs: seq<Result<Block, LoadError>>)
    ensures |rs| == |lines|
    ensures forall i :: 0 <= i < |lines| ==> rs[i] == ParseLine(lines[i])
  {
    seq(|lines|, i requires 0 <= i < |lines| => ParseLine(lines[i]))
  }

  /** The parsed blocks put into `acc` in order; the first failure aborts. */
  function PutParsed(acc: Store, rs: seq<Result<Block, LoadError>>): Result<Store, LoadError>
    decreases |rs|
  {
    if |rs| == 0 then Ok(acc)
    else
      var b :- rs[0];
      PutParsed(acc[b.cord := b], rs[1..])
  }

  /** The map a load builds from the file's lines. */
  function Load(lines: seq<string>): Result<Store, LoadError> {
    PutParsed(map[], ParseAll(lines))
  }

  /** How `loadState` ends: the new map is installed, opening the file
      failed (`IOException`, reported and swallowed), or an exception
      propagates to the caller. */
  datatype LoadOutcome = Loaded | IoFailure | Thrown(error: LoadError)

  /** What reading the file gives: its text, an `IOException` on opening
      it, or bytes that do not decode as UTF-8. */
  datatype FileRead = Text(text: string) | OpenFailed | Undecodable

  /** `loadState`: the live map is replaced only when the file was read
      and every line parsed. */
  function LoadState(current: Store, file: FileRead): (r: (Store, LoadOutcome))
    ensures r.1 != Loaded ==> r.0 == current
    ensures r.1 == Loaded <==> file.Text? && Load(Lines(file.text)).Ok?
    ensures r.1 == Loaded ==> r.0 == Load(Lines(file.text)).value
    ensures file.Text? && Load(Lines(file.text)).Err? ==> r.1 == Thrown(Load(Lines(file.text)).error)
    ensures file.OpenFailed? ==> r.1 == IoFailure
    ensures file.Undecodable? ==> r.1 == Thrown(MalformedInput)
  {
    match file
    case OpenFailed => (current, IoFailure)
    case Undecodable => (current, Thrown(MalformedInput))
    case Text(text) =>
      match Load(Lines(text))
      case Ok(m) => (m, Loaded)
      case Err(e) => (current, Thrown(e))
  }

  function SaveLines(bs: seq<Block>): (ls: seq<string>)
    ensures |ls| == |bs|
    ensures forall i :: 0 <= i < |bs| ==> ls[i] == ToLine(bs[i])
  {
    seq(|bs|, i requires 0 <= i < |bs| => ToLine(bs[i]))
  }

  /** `saveState`: the text written, one line per block of the map in the
      map's iteration order `order`, each followed by `'\n'`. */
  function SaveState(m: Store, order: seq<Block>): (text: string)
    requires IsEnumeration(m, order)
    ensures |Lines(text)| == |m| == |order|
    ensures forall i :: 0 <= i < |order| ==> Lines(text)[i] == ToLine(order[i])
  {
    var ls := SaveLines(order);
    forall i | 0 <= i < |ls|
      ensures OneLine(ls[i])
    {
      assert NoTerminator(ls[i]);
      forall t | 0 <= t < |ls[i]|
        ensures ls[i][t] != '\n' && ls[i][t] != '\r'
      {
        assert ls[i][t] in ls[i];
      }
    }
    LinesOfTerminated(ls);
    EnumerationSize(m, order);
    Terminated(ls)
  }

  // ---------------------------------------------------------------------
  // Round trip

  /** The block a load produces from a block's line. */
  function Refreshed(b: Block): Block {
    Block(b.cord, b.id, b.sideIds, AllVisible)
  }

  predicate NumeralChar(c: char) {
    IsDigit(c) || c == '-'
  }

  lemma IntStringChars(x: int)
    ensures PlainToken(IntToString(x))
    ensures forall c :: c in IntToString(x) ==> NumeralChar(c)
  {
    var s := IntToString(x);
    forall c | c in s ensures NumeralChar(c) {
      var i :| 0 <= i < |s| && s[i] == c;
    }
  }

  lemma {:induction false} JoinChars(parts: seq<string>, sep: string, c: char)
    requires c in Join(parts, sep)
    ensures c in sep || exists i :: 0 <= i < |parts| && c in parts[i]
  {
    if |parts| > 1 {
      assert Join(parts, sep) == parts[0] + sep + Join(parts[1..], sep);
      if c in Join(parts[1..], sep) {
        JoinChars(parts[1..], sep, c);
        if !(c in sep) {
          var i :| 0 <= i < |parts[1..]| && c in parts[1..][i];
          assert c in parts[i + 1];
        }
      }
    }
  }

  /** Joined numerals contain only numeral characters and separator
      characters. */
  lemma JoinedNumeralChars(vals: seq<int32>, sep: string, c: char)
    requires c in Join(IntStrings(vals), sep)
    ensures NumeralChar(c) || c in sep
  {
    JoinChars(IntStrings(vals), sep, c);
    if !(c in sep) {
      var i :| 0 <= i < |vals| && c in IntStrings(vals)[i];
      IntStringChars(vals[i]);
    }
  }

  lemma {:induction false} ParseIntsOfStrings(vals: seq<int32>)
    ensures ParseInts(IntStrings(vals)) == Ok(vals)
  {
    if |vals| > 0 {
      var toks := IntStrings(vals);
      ParseIntToString(vals[0]);
      IntStringsTail(vals);
      ParseIntsOfStrings(vals[1..]);
      ParseIntsCons(toks, vals[0], vals[1..]);
      assert vals == [vals[0]] + vals[1..];
    }
  }

  lemma IntStringsTail(vals: seq<int32>)
    requires 0 < |vals|
    ensures IntStrings(vals)[0] == IntToString(vals[0])
    ensures IntStrings(vals)[1..] == IntStrings(vals[1..])
  {
  }

  /** One parsed token in front of a parsed rest. */
  lemma ParseIntsCons(toks: seq<string>, v: int32, rest: seq<int32>)
    requires 0 < |toks| && ParseInt(toks[0]) == Some(v) && ParseInts(toks[1..]) == Ok(rest)
    ensures ParseInts(toks) == Ok([v] + rest)
  {
  }

  /** No occurrence of `open` starts inside `lead` when `lead` lacks its
      first character. */
  lemma NoOpenInLead(line: string, lead: string, rest: string, open: string)
    requires line == lead + rest
    requires 0 < |open| && open[0] !in lead
    ensures forall t :: 0 <= t < |lead| ==> !StartsWithAt(line, t, open)
  {
    forall t | 0 <= t < |lead|
      ensures !StartsWithAt(line, t, open)
    {
      assert line[t] == lead[t];
      assert lead[t] in lead;
      if t + |open| <= |line| {
        assert line[t..t + |open|][0] == line[t];
      }
    }
  }

  lemma GroupAt(lead: string, group: string, tail: string)
    ensures (lead + group + tail)[|lead|..|lead| + |group|] == group
  {
  }

  /** A field `open + body + close` at `k`, not preceded by another
      `open`, is the match the search finds, and cutting `pre` and `post`
      off its group leaves `inner`. */
  lemma FieldLocated(line: string, k: nat, e: nat, open: string, pre: string, inner: string,
                     post: string, close: char, body: string, st: int, delta: int)
    requires body == pre + inner + post
    requires st == |open| + |pre| && delta == |post| + 1
    requires e == k + |open| + |body| + 1 <= |line|
    requires line[k..e] == open + body + [close]
    requires forall t :: 0 <= t < k ==> !StartsWithAt(line, t, open)
    requires forall t :: 0 <= t < |body| ==> body[t] != close && !IsLineTerminator(body[t])
    ensures Find(line, open, close) == Some((k, e))
    ensures Substring(line[k..e], st, |line[k..e]| - delta) == Some(inner)
  {
    MatchSpan(line, k, open, body, close);
    FindLeftmost(line, k, open, close, e);
    MiddleOf(line[k..e], open, pre, inner, post, close);
  }

  /** What `parseLine` computes once the match and the cut are known. */
  lemma FieldValue(line: string, open: string, close: char, st: int, delta: int, d: Delimiter,
                   a: nat, e: nat, inner: string)
    requires Find(line, open, close) == Some((a, e)) && a <= e <= |line|
    requires Substring(line[a..e], st, |line[a..e]| - delta) == Some(inner)
    ensures ParseField(line, open, close, st, delta, d) == ParseInts(Split(d, inner))
  {
    FoundField(line, open, close, st, delta, d, a, e);
    CutFieldOf(line[a..e], st, delta, d, inner);
  }

  lemma FoundField(line: string, open: string, close: char, st: int, delta: int, d: Delimiter, a: nat, e: nat)
    requires Find(line, open, close) == Some((a, e)) && a <= e <= |line|
    ensures ParseField(line, open, close, st, delta, d) == CutField(line[a..e], st, delta, d)
  {
  }

  lemma CutFieldOf(group: string, st: int, delta: int, d: Delimiter, inner: string)
    requires Substring(group, st, |group| - delta) == Some(inner)
    ensures CutField(group, st, delta, d) == ParseInts(Split(d, inner))
  {
  }

  /** The text between `open + pre` and `post + close`. */
  lemma MiddleOf(group: string, open: string, pre: string, inner: string, post: string, close: char)
    requires group == open + (pre + inner + post) + [close]
    ensures |group| - (|post| + 1) == |open| + |pre| + |inner|
    ensures group[|open| + |pre|..|group| - (|post| + 1)] == inner
  {
    assert group == (open + pre) + inner + (post + [close]);
  }

  /** Joined numerals split and parse back to the numbers. */
  lemma NumeralsParse(vals: seq<int32>, d: Delimiter)
    requires 0 < |vals|
    ensures ParseInts(Split(d, Join(IntStrings(vals), DelimText(d)))) == Ok(vals)
  {
    var toks := IntStrings(vals);
    forall i | 0 <= i < |vals| ensures PlainToken(toks[i]) {
      IntStringChars(vals[i]);
    }
    SplitJoin(d, toks);
    ParseIntsOfStrings(vals);
  }

  /** The field of integers written by the saver parses back to them,
      cut by `st` characters at the front and `delta` at the back. */
  lemma FieldRoundTrip(line: string, lead: string, open: string, pre: string, vals: seq<int32>,
                       post: string, close: char, tail: string, d: Delimiter, st: int, delta: int)
    requires 0 < |vals| && st == |open| + |pre| && delta == |post| + 1
    requires line == lead + (open + (pre + Join(IntStrings(vals), DelimText(d)) + post) + [close]) + tail
    requires forall t :: 0 <= t < |lead| ==> !StartsWithAt(line, t, open)
    requires forall c :: c in pre + Join(IntStrings(vals), DelimText(d)) + post ==> c != close && !IsLineTerminator(c)
    ensures ParseField(line, open, close, st, delta, d) == Ok(vals)
  {
    var inner := Join(IntStrings(vals), DelimText(d));
    var body := pre + inner + post;
    var group := open + body + [close];
    GroupAt(lead, group, tail);
    forall t | 0 <= t < |body|
      ensures body[t] != close && !IsLineTerminator(body[t])
    {
      assert body[t] in body;
    }
    var k, e := |lead|, |lead| + |group|;
    FieldLocated(line, k, e, open, pre, inner, post, close, body, st, delta);
    FieldParses(line, open, close, st, delta, d, k, e, vals);
  }

  /** The field whose match and cut are known parses to the numbers its
      inner text spells. */
  lemma FieldParses(line: string, open: string, close: char, st: int, delta: int, d: Delimiter,
                    a: nat, e: nat, vals: seq<int32>)
    requires 0 < |vals|
    requires Find(line, open, close) == Some((a, e)) && a <= e <= |line|
    requires Substring(line[a..e], st, |line[a..e]| - delta) == Some(Join(IntStrings(vals), DelimText(d)))
    ensures ParseField(line, open, close, st, delta, d) == Ok(vals)
  {
    FieldValue(line, open, close, st, delta, d, a, e, Join(IntStrings(vals), DelimText(d)));
    NumeralsParse(vals, d);
  }

  lemma NumeralsAvoid(vals: seq<int32>, sep: string, pre: string, post: string, close: char)
    requires !NumeralChar(close) && close !in sep && close !in pre && close !in post
    requires forall c :: c in sep + pre + post ==> !IsLineTerminator(c)
    ensures forall c :: c in pre + Join(IntStrings(vals), sep) + post ==> c != close && !IsLineTerminator(c)
  {
    forall c | c in pre + Join(IntStrings(vals), sep) + post
      ensures c != close && !IsLineTerminator(c)
    {
      if c in Join(IntStrings(vals), sep) {
        JoinedNumeralChars(vals, sep, c);
      } else {
        assert c in pre || c in post;
      }
    }
  }

  /** A save line with its three fields given as text. */
  function Layout(cords: string, id: string, sides: string): string {
    "Block: cord=[\t" + cords + "\t],\tid=" + id + ",\tsideIds=[" + sides + "]"
  }

  /** A line in the save format with any number of coordinates and side
      ids, as a hand-edited file may hold. */
  function FieldsLine(coords: seq<int32>, id: int32, sides: seq<int32>): string {
    Layout(Join(IntStrings(coords), "\t"), IntToString(id), Join(IntStrings(sides), ", "))
  }

  lemma JoinThree(x: string, y: string, z: string, sep: string)
    ensures Join([x, y, z], sep) == x + sep + y + sep + z
  {
    assert [x, y, z][1..] == [y, z];
    assert [y, z][1..] == [z];
    assert Join([y, z], sep) == y + sep + z;
    assert Join([x, y, z], sep) == x + sep + (y + sep + z);
  }

  lemma ToLineFields(b: Block)
    ensures ToLine(b) == FieldsLine([b.cord.x, b.cord.y, b.cord.z], b.id, b.sideIds)
  {
    var x, y, z := IntToString(b.cord.x), IntToString(b.cord.y), IntToString(b.cord.z);
    var id, sides := IntToString(b.id), Join(IntStrings(b.sideIds), ", ");
    assert IntStrings([b.cord.x, b.cord.y, b.cord.z]) == [x, y, z];
    JoinThree(x, y, z, "\t");
    LineShape(x, y, z, id, sides);
  }

  /** `toString`'s concatenation, regrouped into the three fields. */
  lemma LineShape(x: string, y: string, z: string, id: string, sides: string)
    ensures "Block: cord=[\t" + x + "\t" + y + "\t" + z + "\t],\tid=" + id + ",\tsideIds=" + ("[" + sides + "]")
         == Layout(x + "\t" + y + "\t" + z, id, sides)
  {
  }

  lemma CordLayout(c: string, i: string, s: string)
    ensures Layout(c, i, s)
         == "Block: " + (CordOpen + ("\t" + c + "\t") + [']']) + (",\tid=" + i + ",\tsideIds=[" + s + "]")
  {
  }

  lemma IdLayout(c: string, i: string, s: string)
    ensures Layout(c, i, s)
         == ("Block: cord=[\t" + c + "\t],\t") + (IdOpen + ("" + i + "") + [',']) + ("\tsideIds=[" + s + "]")
  {
  }

  lemma SideLayout(c: string, i: string, s: string)
    ensures Layout(c, i, s)
         == ("Block: cord=[\t" + c + "\t],\tid=" + i + ",\t") + (SideOpen + ("" + s + "") + [']']) + ""
  {
  }

  /** The coordinate field parses back from any line that starts with it. */
  lemma CordFieldOf(line: string, coords: seq<int32>, tail: string)
    requires 0 < |coords|
    requires line == "Block: " + (CordOpen + ("\t" + Join(IntStrings(coords), "\t") + "\t") + [']']) + tail
    ensures ParseField(line, CordOpen, ']', 7, 2, Blanks) == Ok(coords)
  {
    var lead := "Block: ";
    forall t | 0 <= t < |lead|
      ensures !StartsWithAt(line, t, CordOpen)
    {
      assert line[..|lead|] == lead;
      assert line[4] == 'k';
      if t + 6 <= |line| {
        assert line[t..t + 6][0] == line[t];
        assert line[t..t + 6][1] == line[t + 1];
      }
    }
    NumeralsAvoid(coords, "\t", "\t", "\t", ']');
    FieldRoundTrip(line, lead, CordOpen, "\t", coords, "\t", ']', tail, Blanks, 7, 2);
  }

  /** The id field parses back from any line whose lead has no `'i'`. */
  lemma IdFieldOf(line: string, lead: string, id: int32, tail: string)
    requires 'i' !in lead
    requires line == lead + (IdOpen + ("" + Join(IntStrings([id]), "\t") + "") + [',']) + tail
    ensures ParseField(line, IdOpen, ',', 3, 1, Blanks) == Ok([id])
  {
    NoOpenInLead(line, lead, (IdOpen + ("" + Join(IntStrings([id]), "\t") + "") + [',']) + tail, IdOpen);
    NumeralsAvoid([id], "\t", "", "", ',');
    FieldRoundTrip(line, lead, IdOpen, "", [id], "", ',', tail, Blanks, 3, 1);
  }

  /** The side-id field parses back from any line ending with it whose
      lead has no `'s'`. */
  lemma SideFieldOf(line: string, lead: string, sides: seq<int32>)
    requires 0 < |sides| && 's' !in lead
    requires line == lead + (SideOpen + ("" + Join(IntStrings(sides), ", ") + "") + [']']) + ""
    ensures ParseField(line, SideOpen, ']', 9, 1, CommaBlanks) == Ok(sides)
  {
    NoOpenInLead(line, lead, (SideOpen + ("" + Join(IntStrings(sides), ", ") + "") + [']']) + "", SideOpen);
    NumeralsAvoid(sides, ", ", "", "", ']');
    FieldRoundTrip(line, lead, SideOpen, "", sides, "", ']', "", CommaBlanks, 9, 1);
  }

  /** Joined numerals hold neither an `'i'` nor an `'s'`. */
  lemma NumeralsLetterFree(vals: seq<int32>, sep: string)
    requires 'i' !in sep && 's' !in sep
    ensures 'i' !in Join(IntStrings(vals), sep) && 's' !in Join(IntStrings(vals), sep)
  {
    if 'i' in Join(IntStrings(vals), sep) {
      JoinedNumeralChars(vals, sep, 'i');
    }
    if 's' in Join(IntStrings(vals), sep) {
      JoinedNumeralChars(vals, sep, 's');
    }
  }

  lemma LeadLetters(c: string, i: string)
    requires 'i' !in c && 's' !in c && 's' !in i
    ensures 'i' !in "Block: cord=[\t" + c + "\t],\t"
    ensures 's' !in "Block: cord=[\t" + c + "\t],\tid=" + i + ",\t"
  {
    var p, q, r := "Block: cord=[\t", "\t],\tid=", ",\t";
    assert forall k :: 0 <= k < |p| ==> p[k] != 'i' && p[k] != 's';
    assert forall k :: 0 <= k < |q| ==> q[k] != 's';
    assert forall k :: 0 <= k < |r| ==> r[k] != 's';
    assert "\t],\t"[0] != 'i' && "\t],\t"[1] != 'i' && "\t],\t"[2] != 'i' && "\t],\t"[3] != 'i';
  }

  lemma IdOfFields(coords: seq<int32>, id: int32, sides: seq<int32>)
    ensures ParseField(FieldsLine(coords, id, sides), IdOpen, ',', 3, 1, Blanks) == Ok([id])
  {
    var c, i, s := Join(IntStrings(coords), "\t"), IntToString(id), Join(IntStrings(sides), ", ");
    assert IntStrings([id]) == [i];
    NumeralsLetterFree(coords, "\t");
    NumeralsLetterFree([id], "\t");
    LeadLetters(c, i);
    IdLayout(c, i, s);
    IdFieldOf(FieldsLine(coords, id, sides), "Block: cord=[\t" + c + "\t],\t", id, "\tsideIds=[" + s + "]");
  }

  lemma SidesOfFields(coords: seq<int32>, id: int32, sides: seq<int32>)
    requires 0 < |sides|
    ensures ParseField(FieldsLine(coords, id, sides), SideOpen, ']', 9, 1, CommaBlanks) == Ok(sides)
  {
    var c, i, s := Join(IntStrings(coords), "\t"), IntToString(id), Join(IntStrings(sides), ", ");
    assert IntStrings([id]) == [i];
    NumeralsLetterFree(coords, "\t");
    NumeralsLetterFree([id], "\t");
    LeadLetters(c, i);
    SideLayout(c, i, s);
    SideFieldOf(FieldsLine(coords, id, sides), "Block: cord=[\t" + c + "\t],\tid=" + i + ",\t", sides);
  }

  /** The three fields of a save line parse back whatever their lengths;
      the line yields a block exactly when it has three coordinates and six
      side ids, and is a corrupt state otherwise. */
  lemma ParseFieldsLine(coords: seq<int32>, id: int32, sides: seq<int32>)
    requires 0 < |coords| && 0 < |sides|
    ensures ParseLine(FieldsLine(coords, id, sides))
         == if |coords| == 3 && |sides| == FaceCount
            then Ok(Block(Cell(coords[0], coords[1], coords[2]), id, sides, AllVisible))
            else Err(StateCorruption)
  {
    var c, i, s := Join(IntStrings(coords), "\t"), IntToString(id), Join(IntStrings(sides), ", ");
    assert ParseField(FieldsLine(coords, id, sides), CordOpen, ']', 7, 2, Blanks) == Ok(coords) by {
      CordLayout(c, i, s);
      CordFieldOf(FieldsLine(coords, id, sides), coords, ",\tid=" + i + ",\tsideIds=[" + s + "]");
    }
    IdOfFields(coords, id, sides);
    SidesOfFields(coords, id, sides);
  }

  /** Parsing a block's line recovers its coordinate, id and six side ids,
      for every `int` value; the faces come back all visible. */
  lemma ParseToLine(b: Block)
    requires |b.sideIds| == FaceCount
    ensures ParseLine(ToLine(b)) == Ok(Refreshed(b))
  {
    ToLineFields(b);
    ParseFieldsLine([b.cord.x, b.cord.y, b.cord.z], b.id, b.sideIds);
  }

  // ---------------------------------------------------------------------
  // Loading a whole file

  predicate AllOk(rs: seq<Result<Block, LoadError>>) {
    forall i :: 0 <= i < |rs| ==> rs[i].Ok?
  }

  /** The blocks of results that are all successes. */
  function Values(rs: seq<Result<Block, LoadError>>): (bs: seq<Block>)
    requires AllOk(rs)
    ensures |bs| == |rs|
    ensures forall i :: 0 <= i < |rs| ==> bs[i] == rs[i].value
  {
    seq(|rs|, i requires 0 <= i < |rs| => rs[i].value)
  }

  /** Result `i` is the first failure. */
  predicate FirstFailure(rs: seq<Result<Block, LoadError>>, i: int) {
    && 0 <= i < |rs|
    && rs[i].Err?
    && forall j :: 0 <= j < i ==> rs[j].Ok?
  }

  /** The puts succeed exactly when every line parsed, and then put the
      parsed blocks in file order; otherwise they fail with the first
      failure's error. */
  lemma {:induction false} PutParsedFacts(acc: Store, rs: seq<Result<Block, LoadError>>)
    ensures PutParsed(acc, rs).Ok? <==> AllOk(rs)
    ensures PutParsed(acc, rs).Ok? ==> PutParsed(acc, rs).value == PutAll(acc, Values(rs))
    ensures PutParsed(acc, rs).Err? ==> exists i :: FirstFailure(rs, i) && PutParsed(acc, rs).error == rs[i].error
    decreases |rs|
  {
    if |rs| > 0 {
      var rest := rs[1..];
      assert forall i :: 1 <= i < |rs| ==> rs[i] == rest[i - 1];
      if rs[0].Err? {
        assert FirstFailure(rs, 0);
      } else {
        var b := rs[0].value;
        PutParsedFacts(acc[b.cord := b], rest);
        if PutParsed(acc, rs).Ok? {
          assert Values(rs)[1..] == Values(rest);
        } else {
          var i :| FirstFailure(rest, i) && PutParsed(acc, rs).error == rest[i].error;
          assert FirstFailure(rs, i + 1);
        }
      }
    }
  }

  /** A load succeeds exactly when every line parses. It then holds
      exactly the coordinates of the file's blocks, each under the block
      of the last line naming it, all faces visible; a failed load ends
      with the first bad line's error. */
  lemma LoadFacts(lines: seq<string>)
    ensures Load(lines).Ok? <==> AllOk(ParseAll(lines))
    ensures Load(lines).Ok? ==> KeyedByCord(Load(lines).value)
    ensures Load(lines).Ok? ==> Load(lines).value.Keys == CordsOf(Values(ParseAll(lines)))
    ensures Load(lines).Ok? ==> forall i :: 0 <= i < |lines| && LastWithCord(Values(ParseAll(lines)), i) ==>
              Load(lines).value[Values(ParseAll(lines))[i].cord] == Values(ParseAll(lines))[i]
    ensures Load(lines).Ok? ==> forall c :: c in Load(lines).value ==> Load(lines).value[c].sideRender == AllVisible
    ensures Load(lines).Err? ==>
              exists i :: FirstFailure(ParseAll(lines), i) && Load(lines).error == ParseAll(lines)[i].error
  {
    var rs := ParseAll(lines);
    PutParsedFacts(map[], rs);
    if Load(lines).Ok? {
      var bs := Values(rs);
      PutAllFacts(map[], bs);
      forall c | c in Load(lines).value
        ensures Load(lines).value[c].sideRender == AllVisible
      {
        LastOccurrence(bs, c);
      }
    }
  }

  // ---------------------------------------------------------------------
  // Saving then loading

  function RefreshedAll(bs: seq<Block>): (rs: seq<Block>)
    ensures |rs| == |bs|
    ensures forall i :: 0 <= i < |bs| ==> rs[i] == Refreshed(bs[i])
  {
    seq(|bs|, i requires 0 <= i < |bs| => Refreshed(bs[i]))
  }

  lemma {:induction false} PutSavedLines(acc: Store, bs: seq<Block>)
    requires forall i :: 0 <= i < |bs| ==> |bs[i].sideIds| == FaceCount
    ensures PutParsed(acc, ParseAll(SaveLines(bs))) == Ok(PutAll(acc, RefreshedAll(bs)))
    decreases |bs|
  {
    if |bs| > 0 {
      ParseToLine(bs[0]);
      assert ParseAll(SaveLines(bs))[1..] == ParseAll(SaveLines(bs[1..]));
      assert RefreshedAll(bs)[1..] == RefreshedAll(bs[1..]);
      PutSavedLines(acc[bs[0].cord := Refreshed(bs[0])], bs[1..]);
    }
  }

  /** The map a load rebuilds from a saved map: every face visible. */
  function Reloaded(m: Store): (r: Store)
    ensures r.Keys == m.Keys
    ensures forall c :: c in m ==> r[c] == Refreshed(m[c])
  {
    map c | c in m :: Refreshed(m[c])
  }

  /** A map whose faces are all visible reloads as itself. */
  lemma ReloadedVisible(m: Store)
    requires forall c :: c in m ==> m[c].sideRender == AllVisible
    ensures Reloaded(m) == m
  {
    forall c | c in m ensures Reloaded(m)[c] == m[c] {
      var b := m[c];
      assert Refreshed(b) == Block(b.cord, b.id, b.sideIds, b.sideRender);
    }
  }

  lemma ReloadedEnumeration(m: Store, order: seq<Block>)
    requires KeyedByCord(m) && IsEnumeration(m, order)
    ensures KeyedByCord(Reloaded(m)) && IsEnumeration(Reloaded(m), RefreshedAll(order))
  {
    var r, rs := Reloaded(m), RefreshedAll(order);
    forall c | c in r ensures c in CordsOf(rs) {
      var i :| 0 <= i < |order| && order[i].cord == c;
      assert rs[i].cord == c;
    }
  }

  /** Saving a map of well-formed blocks and loading the file back gives
      the same map with every face visible again; for the engine's blocks,
      whose faces are never hidden, it is the same map. */
  lemma SaveLoadRoundTrip(m: Store, order: seq<Block>)
    requires KeyedByCord(m) && IsEnumeration(m, order)
    requires forall c :: c in m ==> WellFormed(m[c])
    ensures Load(Lines(SaveState(m, order))) == Ok(Reloaded(m))
    ensures (forall c :: c in m ==> m[c].sideRender == AllVisible) ==> Load(Lines(SaveState(m, order))) == Ok(m)
  {
    SavedLines(m, order);
    LoadSavedLines(m, order);
    if forall c :: c in m ==> m[c].sideRender == AllVisible {
      ReloadedVisible(m);
    }
  }

  lemma SavedLines(m: Store, order: seq<Block>)
    requires IsEnumeration(m, order)
    ensures Lines(SaveState(m, order)) == SaveLines(order)
  {
  }

  lemma LoadSavedLines(m: Store, order: seq<Block>)
    requires KeyedByCord(m) && IsEnumeration(m, order)
    requires forall c :: c in m ==> WellFormed(m[c])
    ensures Load(SaveLines(order)) == Ok(Reloaded(m))
  {
    assert forall i :: 0 <= i < |order| ==> |order[i].sideIds| == FaceCount;
    PutSavedLines(map[], order);
    ReloadedEnumeration(m, order);
    PutAllEnumeration(Reloaded(m), RefreshedAll(order));
  }

  /** Loading a file the engine saved installs the saved map. */
  lemma LoadStateOfSaved(current: Store, m: Store, order: seq<Block>)
    requires KeyedByCord(m) && IsEnumeration(m, order)
    requires forall c :: c in m ==> WellFormed(m[c]) && m[c].sideRender == AllVisible
    ensures LoadState(current, Text(SaveState(m, order))) == (m, Loaded)
  {
    SaveLoadRoundTrip(m, order);
  }

  /** A line with two coordinates parses all three fields but is rejected
      as a corrupt state, and a load containing it leaves the live map as
      it was. */
  lemma TwoCoordinatesRejected(current: Store, x: int32, y: int32, id: int32, sides: seq<int32>)
    requires |sides| == FaceCount
    ensures ParseLine(FieldsLine([x, y], id, sides)) == Err(StateCorruption)
    ensures LoadState(current, Text(FieldsLine([x, y], id, sides) + "\n")) == (current, Thrown(StateCorruption))
  {
    var line := FieldsLine([x, y], id, sides);
    ParseFieldsLine([x, y], id, sides);
    FieldsLineOneLine([x, y], id, sides);
    LinesOfTerminated([line]);
    assert Terminated([line]) == line + "\n";
  }

  lemma NumeralsNoTerminator(vals: seq<int32>, sep: string)
    requires NoTerminator(sep)
    ensures NoTerminator(Join(IntStrings(vals), sep))
  {
    forall i | 0 <= i < |vals| ensures NoTerminator(IntStrings(vals)[i]) {
      IntStringNoTerminator(vals[i]);
    }
    JoinNoTerminator(IntStrings(vals), sep);
  }

  /** Every line in the save format is a single line of the file. */
  lemma FieldsLineOneLine(coords: seq<int32>, id: int32, sides: seq<int32>)
    ensures OneLine(FieldsLine(coords, id, sides))
  {
    var c, i, s := Join(IntStrings(coords), "\t"), IntToString(id), Join(IntStrings(sides), ", ");
    NumeralsNoTerminator(coords, "\t");
    NumeralsNoTerminator(sides, ", ");
    IntStringNoTerminator(id);
    OneLineOf(c);
    OneLineOf(i);
    OneLineOf(s);
    LayoutOneLine(c, i, s);
  }

  lemma LayoutOneLine(c: string, i: string, s: string)
    requires OneLine(c) && OneLine(i) && OneLine(s)
    ensures OneLine(Layout(c, i, s))
  {
    OneLineAppend("Block: cord=[\t", c);
    OneLineAppend("Block: cord=[\t" + c, "\t],\tid=");
    OneLineAppend("Block: cord=[\t" + c + "\t],\tid=", i);
    OneLineAppend("Block: cord=[\t" + c + "\t],\tid=" + i, ",\tsideIds=[");
    OneLineAppend("Block: cord=[\t" + c + "\t],\tid=" + i + ",\tsideIds=[", s);
    OneLineAppend("Block: cord=[\t" + c + "\t],\tid=" + i + ",\tsideIds=[" + s, "]");
  }
}
