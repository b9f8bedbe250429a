/** The unlock file (src/achievements.cpp): what is written, what is read back, and the adding
    of awards. */
module Unlocked {
  import opened Options
  import opened Stamps

  datatype Entry = Entry(id: nat, when: int)

  /** A player's unlocked achievements, in the order they were awarded. */
  datatype Unlocks = Unlocks(player: string, list: seq<Entry>)

  predicate Has(list: seq<Entry>, id: nat) {
    exists k :: 0 <= k < |list| && list[k].id == id
  }

  predicate Distinct(list: seq<Entry>) {
    forall i, j | 0 <= i < j < |list| :: list[i].id != list[j].id
  }

  // ------------------------------------------------------------ text

  predicate BlankFront(c: char) { c == ' ' || c == '\t' }
  predicate BlankBack(c: char) { c == ' ' || c == '\t' || c == '\r' }

  function TrimFront(text: string): string {
    if text != [] && BlankFront(text[0]) then TrimFront(text[1..]) else text
  }

  function TrimBack(text: string): string {
    if text != [] && BlankBack(text[|text| - 1]) then TrimBack(text[..|text| - 1]) else text
  }

  function Trim(text: string): string {
    TrimBack(TrimFront(text))
  }

  /** The first place of a character, or the length. */
  function Find(text: string, c: char): (at: nat)
    ensures at <= |text| && c !in text[..at] && (at < |text| ==> text[at] == c)
  {
    if text == [] || text[0] == c then 0
    else
      var at := Find(text[1..], c) + 1;
      assert text[..at] == [text[0]] + text[1..][..at - 1];
      at
  }

  /** The lines getline takes from a text. */
  function Lines(text: string): seq<string> {
    if text == [] then []
    else
      var at := Find(text, '\n');
      if at == |text| then [text] else [text[..at]] + Lines(text[at + 1..])
  }

  // ------------------------------------------------------------ reading

  predicate IsKey(key: string) {
    0 < |key| <= 9 && forall i | 0 <= i < |key| :: IsDigit(key[i])
  }

  /** One line of the file. */
  function ReadLine(u: Unlocks, line: string): Unlocks {
    var clean := Trim(line);
    if clean == [] || clean[0] == '#' then u
    else
      var equals := Find(clean, '=');
      if equals == |clean| then u
      else
        var key, value := Trim(clean[..equals]), Trim(clean[equals + 1..]);
        if key == "player" then u.(player := value)
        else if !IsKey(key) then u
        else
          DigitsAreNumber(key);
          var id, when := Number(key).value, ParsedUtc(value);
          if when.None? || Has(u.list, id) then u else u.(list := u.list + [Entry(id, when.value)])
  }

  lemma {:induction false} DigitsAreNumber(key: string)
    requires forall i | 0 <= i < |key| :: IsDigit(key[i])
    ensures Number(key).Some?
  {
    if key != [] {
      DigitsAreNumber(key[..|key| - 1]);
    }
  }

  function ReadLines(u: Unlocks, lines: seq<string>): Unlocks
    decreases |lines|
  {
    if lines == [] then u else ReadLines(ReadLine(u, lines[0]), lines[1..])
  }

  function Parsed(text: string): Unlocks {
    ReadLines(Unlocks("", []), Lines(text))
  }

  /** parse_unlocked: line by line. */
  method ParseUnlocked(text: string) returns (u: Unlocks)
    ensures u == Parsed(text)
  {
    hide Find, ReadLine;
    u := Unlocks("", []);
    var rest := text;
    while rest != []
      invariant ReadLines(u, Lines(rest)) == Parsed(text)
      decreases |rest|
    {
      var at := Find(rest, '\n');
      LinesOf(rest);
      u := ReadLine(u, rest[..at]);
      rest := if at == |rest| then [] else rest[at + 1..];
    }
  }

  lemma LinesOf(text: string)
    requires text != []
    ensures var at := Find(text, '\n');
      Lines(text) == [text[..at]] + Lines(if at == |text| then [] else text[at + 1..])
  {
    var at := Find(text, '\n');
    if at == |text| {
      assert text[..at] == text;
    }
  }

  // ------------------------------------------------------------ writing

  const FIRST_LINE: string :=
    "# Free Riders Recompiled: " + "the achievements this player has unlocked, " + "each with"
  const SECOND_LINE: string :=
    "# the time it was first awarded (UTC). " + "The launcher's Achievements page shows them."

  function EntryLine(e: Entry): string {
    Digits(e.id) + "=" + UtcText(e.when)
  }

  function EntryLines(list: seq<Entry>): (lines: seq<string>)
    ensures |lines| == |list|
  {
    seq(|list|, k requires 0 <= k < |list| => EntryLine(list[k]))
  }

  function PlayerLine(player: string): seq<string> {
    if player != "" then ["player=" + player] else []
  }

  function FileLines(u: Unlocks): seq<string> {
    [FIRST_LINE, SECOND_LINE] + PlayerLine(u.player) + EntryLines(u.list)
  }

  /** Each line with its line feed. */
  function Ended(lines: seq<string>): string {
    if lines == [] then "" else Ended(lines[..|lines| - 1]) + lines[|lines| - 1] + "\n"
  }

  /** format_unlocked. */
  method FormatUnlocked(u: Unlocks) returns (text: string)
    ensures text == Ended(FileLines(u))
  {
    hide *;
    text := FIRST_LINE + "\n" + (SECOND_LINE + "\n");
    if u.player != "" {
      text := text + ("player=" + u.player + "\n");
    }
    Top(u.player);
    for k := 0 to |u.list|
      invariant text == Ended([FIRST_LINE, SECOND_LINE] + PlayerLine(u.player) + EntryLines(u.list[..k]))
    {
      text := text + (Digits(u.list[k].id) + "=" + UtcText(u.list[k].when) + "\n");
      ghost var before := [FIRST_LINE, SECOND_LINE] + PlayerLine(u.player) + EntryLines(u.list[..k]);
      EndedMore(before, EntryLine(u.list[k]));
      LineOf(u.list[k]);
      OneMoreLine(u.list, k);
      assert before + [EntryLine(u.list[k])] ==
        [FIRST_LINE, SECOND_LINE] + PlayerLine(u.player) + (EntryLines(u.list[..k]) + [EntryLine(u.list[k])]);
    }
    assert u.list[..|u.list|] == u.list;
    FileIs(u);
  }

  lemma Top(player: string)
    ensures EntryLines([]) == []
    ensures Ended([FIRST_LINE, SECOND_LINE] + PlayerLine(player) + EntryLines([])) ==
      FIRST_LINE + "\n" + (SECOND_LINE + "\n") + if player != "" then "player=" + player + "\n" else []
  {
    hide FIRST_LINE, SECOND_LINE;
    var lines := [FIRST_LINE, SECOND_LINE];
    EndedMore([], FIRST_LINE);
    EndedMore([FIRST_LINE], SECOND_LINE);
    assert [] + [FIRST_LINE] == [FIRST_LINE] && [FIRST_LINE] + [SECOND_LINE] == lines;
    assert Ended([]) + (FIRST_LINE + "\n") == FIRST_LINE + "\n";
    if player != "" {
      EndedMore(lines, "player=" + player);
      assert lines + PlayerLine(player) + EntryLines([]) == lines + ["player=" + player];
    } else {
      assert lines + PlayerLine(player) + EntryLines([]) == lines;
    }
  }

  lemma FileIs(u: Unlocks)
    ensures FileLines(u) == [FIRST_LINE, SECOND_LINE] + PlayerLine(u.player) + EntryLines(u.list)
  {
  }

  lemma OneMoreLine(list: seq<Entry>, k: nat)
    requires k < |list|
    ensures EntryLines(list[..k + 1]) == EntryLines(list[..k]) + [EntryLine(list[k])]
  {
    hide EntryLine;
  }

  lemma LineOf(e: Entry)
    ensures EntryLine(e) == Digits(e.id) + "=" + UtcText(e.when)
  {
  }

  lemma EndedMore(lines: seq<string>, line: string)
    ensures Ended(lines + [line]) == Ended(lines) + (line + "\n")
  {
    assert (lines + [line])[..|lines|] == lines;
    assert Ended(lines) + line + "\n" == Ended(lines) + (line + "\n");
  }

  // ------------------------------------------------------------ lines come back

  predicate OneLine(text: string) {
    '\n' !in text
  }

  lemma {:induction false} FindIs(text: string, c: char, at: nat)
    requires at < |text| && text[at] == c && c !in text[..at]
    ensures Find(text, c) == at
  {
    if at > 0 {
      assert text[..at][0] == text[0] && c !in text[1..][..at - 1] by {
        assert text[..at] == [text[0]] + text[1..][..at - 1];
      }
      FindIs(text[1..], c, at - 1);
    }
  }

  lemma LinesFront(line: string, rest: string)
    requires OneLine(line)
    ensures Lines(line + "\n" + rest) == [line] + Lines(rest)
  {
    var text := line + "\n" + rest;
    assert text[..|line|] == line && text[|line| + 1..] == rest;
    FindIs(text, '\n', |line|);
  }

  lemma {:induction false} LinesOfEnded(lines: seq<string>, rest: string)
    requires forall k | 0 <= k < |lines| :: OneLine(lines[k])
    ensures Lines(Ended(lines) + rest) == lines + Lines(rest)
  {
    hide Lines, OneLine;
    if lines == [] {
      assert Ended(lines) + rest == rest;
    } else {
      var last := |lines| - 1;
      assert Ended(lines) + rest == Ended(lines[..last]) + (lines[last] + "\n" + rest);
      LinesFront(lines[last], rest);
      LinesOfEnded(lines[..last], lines[last] + "\n" + rest);
      assert lines == lines[..last] + [lines[last]];
    }
  }

  lemma {:induction false} ReadLinesTwice(u: Unlocks, first: seq<string>, second: seq<string>)
    ensures ReadLines(u, first + second) == ReadLines(ReadLines(u, first), second)
    decreases |first|
  {
    if first == [] {
      assert first + second == second;
    } else {
      assert (first + second)[1..] == first[1..] + second;
      ReadLinesTwice(ReadLine(u, first[0]), first[1..], second);
    }
  }

  // ------------------------------------------------------------ one written line

  predicate Trimmed(text: string) {
    text != [] ==> !BlankFront(text[0]) && !BlankBack(text[|text| - 1])
  }

  lemma TrimmedStays(text: string)
    requires Trimmed(text)
    ensures Trim(text) == text
  {
  }

  lemma {:induction false} TrimFrontTrims(text: string)
    ensures TrimFront(text) != [] ==> !BlankFront(TrimFront(text)[0])
    ensures OneLine(text) ==> OneLine(TrimFront(text))
  {
    if text != [] && BlankFront(text[0]) {
      TrimFrontTrims(text[1..]);
    }
  }

  lemma {:induction false} TrimBackTrims(text: string)
    ensures TrimBack(text) != [] ==> !BlankBack(TrimBack(text)[|TrimBack(text)| - 1]) && TrimBack(text)[0] == text[0]
    ensures OneLine(text) ==> OneLine(TrimBack(text))
  {
    if text != [] && BlankBack(text[|text| - 1]) {
      TrimBackTrims(text[..|text| - 1]);
    }
  }

  lemma TrimTrims(text: string)
    ensures Trimmed(Trim(text)) && (OneLine(text) ==> OneLine(Trim(text)))
  {
    TrimFrontTrims(text);
    TrimBackTrims(TrimFront(text));
  }

  /** Spaces and tabs are trimmed on both sides, carriage returns at the end alone. */
  lemma {:induction false} TrimBlanks(front: string, core: string, back: string)
    requires forall c | c in front :: c == ' ' || c == '\t'
    requires forall c | c in back :: c == ' ' || c == '\t' || c == '\r'
    requires core != [] && core[0] !in {' ', '\t'} && core[|core| - 1] !in {' ', '\t', '\r'}
    ensures Trim(front + core + back) == core
    decreases |front| + |back|
  {
    if front != [] {
      assert (front + core + back)[1..] == front[1..] + core + back && front[0] in front;
      assert forall c | c in front[1..] :: c in front;
      TrimBlanks(front[1..], core, back);
    } else {
      assert front + core + back == core + back && TrimFront(core + back) == core + back;
      TrimEnd(core, back);
    }
  }

  lemma {:induction false} TrimEnd(core: string, back: string)
    requires forall c | c in back :: c == ' ' || c == '\t' || c == '\r'
    requires core != [] && core[|core| - 1] !in {' ', '\t', '\r'}
    ensures TrimBack(core + back) == core
  {
    if back != [] {
      var last := |back| - 1;
      assert (core + back)[..|core + back| - 1] == core + back[..last] && back[last] in back;
      assert forall c | c in back[..last] :: c in back;
      TrimEnd(core, back[..last]);
    } else {
      assert core + back == core;
    }
  }

  /** A carriage return at the end of a line changes nothing. */
  lemma {:induction false} TrimReturn(line: string)
    ensures Trim(line + "\r") == Trim(line)
  {
    if line != [] && BlankFront(line[0]) {
      assert (line + "\r")[1..] == line[1..] + "\r";
      TrimReturn(line[1..]);
    } else if line != [] {
      assert (line + "\r")[..|line|] == line;
    } else {
      assert line + "\r" == "\r" && "\r"[..0] == "";
      assert TrimFront("\r") == "\r";
    }
  }

  /** So a file with CRLF line ends is read as one without. */
  lemma {:induction false} ReturnsRead(u: Unlocks, lines: seq<string>, returned: seq<string>)
    requires |returned| == |lines| && forall k | 0 <= k < |lines| :: returned[k] == lines[k] + "\r"
    ensures ReadLines(u, returned) == ReadLines(u, lines)
    decreases |lines|
  {
    if lines != [] {
      TrimReturn(lines[0]);
      hide Trim;
      assert ReadLine(u, returned[0]) == ReadLine(u, lines[0]);
      ReturnsRead(ReadLine(u, lines[0]), lines[1..], returned[1..]);
    }
  }

  /** Blanks round the key and the value do not matter either. */
  lemma BlanksRead(u: Unlocks, front: string, key: string, before: string, after: string, value: string, back: string)
    requires forall c | c in front || c in after :: c == ' ' || c == '\t'
    requires forall c | c in before || c in back :: c == ' ' || c == '\t' || c == '\r'
    requires Trimmed(key) && Trimmed(value) && key != [] && value != [] && '=' !in key
    ensures ReadLine(u, front + key + before + "=" + after + value + back) == ReadLine(u, key + "=" + value)
  {
    var core, plain := key + before + "=" + after + value, key + "=" + value;
    assert front + key + before + "=" + after + value + back == front + core + back && plain == "" + plain + "";
    TrimBlanks(front, core, back);
    TrimBlanks("", plain, "");
    PartsSplit(front + core + back, key, before, after, value);
    assert key + "" + "=" + "" + value == plain;
    PartsSplit(plain, key, "", "", value);
    SameLine(u, front + core + back, plain, key[0], key, value);
  }

  ghost predicate Splits(line: string, first: char, key: string, value: string) {
    var clean := Trim(line);
    clean != [] && clean[0] == first &&
    var equals := Find(clean, '=');
    equals < |clean| && Trim(clean[..equals]) == key && Trim(clean[equals + 1..]) == value
  }

  lemma PartsSplit(line: string, key: string, before: string, after: string, value: string)
    requires Trim(line) == key + before + "=" + after + value
    requires forall c | c in after :: c == ' ' || c == '\t'
    requires forall c | c in before :: c == ' ' || c == '\t' || c == '\r'
    requires Trimmed(key) && Trimmed(value) && key != [] && value != [] && '=' !in key
    ensures Splits(line, key[0], key, value)
  {
    hide Find, Trim;
    var core := key + before + "=" + after + value;
    var at := |key + before|;
    assert core[..at] == key + before && core[at + 1..] == after + value && core[at] == '=';
    assert '=' !in before && core[0] == key[0];
    FindIs(core, '=', at);
    assert "" + key + before == key + before && after + value + "" == after + value;
    TrimBlanks("", key, before);
    TrimBlanks(after, value, "");
  }

  lemma SameLine(u: Unlocks, one: string, other: string, first: char, key: string, value: string)
    requires Splits(one, first, key, value) && Splits(other, first, key, value)
    ensures ReadLine(u, one) == ReadLine(u, other)
  {
    hide Trim, Find, IsKey, Number, ParsedUtc;
  }

  predicate Plain(c: char) {
    IsDigit(c) || c == '-' || c == 'T' || c == ':' || c == 'Z'
  }

  lemma UtcIsPlain(seconds: int)
    ensures var text := UtcText(seconds);
      text != [] && (forall i | 0 <= i < |text| :: Plain(text[i]))
  {
    hide StampOf, Padded, IsStamp, IsDigit, Punctuated;
    SecondsRoundTrip(seconds);
    var stamp := StampOf(seconds);
    StampIsPlain(stamp);
  }

  lemma StampIsPlain(stamp: Stamp)
    requires IsStamp(stamp)
    ensures var text := StampText(stamp);
      text != [] && (forall i | 0 <= i < |text| :: Plain(text[i]))
  {
    hide Padded;
    var year := YearText(stamp.date.year);
    assert forall i | 0 <= i < |year| :: Plain(year[i]);
  }

  lemma PlainTrimmed(text: string)
    requires forall i | 0 <= i < |text| :: Plain(text[i])
    ensures Trimmed(text) && OneLine(text) && '=' !in text
  {
  }

  /** Entries the reader takes back from the file. */
  predicate Readable(e: Entry) {
    e.id < Pow10(9) && YearFits(e.when)
  }

  function Taken(list: seq<Entry>, e: Entry): seq<Entry> {
    if Readable(e) && !Has(list, e.id) then list + [e] else list
  }

  lemma DigitsPlain(id: nat)
    ensures forall i | 0 <= i < |Digits(id)| :: Plain(Digits(id)[i])
  {
  }

  lemma EntryLineParts(e: Entry)
    ensures var line, key, value := EntryLine(e), Digits(e.id), UtcText(e.when);
      OneLine(line) && Trim(line) == line && line != [] && line[0] != '#' && Find(line, '=') == |key| < |line|
      && line[..|key|] == key && line[|key| + 1..] == value && Trim(key) == key && Trim(value) == value
        && key != "player"
  {
    hide StampText, StampOf, Pow10, UtcText, Digits, Trim, Find;
    var line, key, value := EntryLine(e), Digits(e.id), UtcText(e.when);
    DigitsPlain(e.id);
    UtcIsPlain(e.when);
    PlainTrimmed(key);
    PlainTrimmed(value);
    TrimmedStays(key);
    TrimmedStays(value);
    TrimmedStays(line);
    assert line[..|key|] == key;
    FindIs(line, '=', |key|);
    assert IsDigit(key[0]);
  }

  /** Reading a written entry adds it, unless its id is too long, its year has not four
      digits, or the id was there. */
  lemma EntryReadsBack(u: Unlocks, e: Entry)
    ensures ReadLine(u, EntryLine(e)) == u.(list := Taken(u.list, e))
  {
    hide StampText, StampOf, Pow10, EntryLine, UtcText, Digits, Trim, Find, Number, Has;
    EntryLineParts(e);
    DigitsRead(e.id);
    DigitsLength(e.id, 9);
    TextReadsBack(e.when);
  }

  lemma CommentReads(u: Unlocks, line: string)
    requires line != [] && line[0] == '#'
    ensures ReadLine(u, line) == u
  {
    TrimFrontStays(line);
    TrimBackTrims(line);
  }

  lemma TrimFrontStays(line: string)
    requires line != [] && !BlankFront(line[0])
    ensures TrimFront(line) == line
  {
  }

  lemma PlayerReads(u: Unlocks, player: string)
    requires player != "" && Trimmed(player)
    ensures ReadLine(u, "player=" + player) == u.(player := player)
  {
    var line := "player=" + player;
    assert line[0] == 'p' && line[|line| - 1] == player[|player| - 1];
    TrimmedStays(line);
    assert line[..6] == "player" && line[7..] == player;
    FindIs(line, '=', 6);
    TrimmedStays("player");
    TrimmedStays(player);
  }

  // ------------------------------------------------------------ the whole file

  function TakenAll(list: seq<Entry>, more: seq<Entry>): seq<Entry>
    decreases |more|
  {
    if more == [] then list else TakenAll(Taken(list, more[0]), more[1..])
  }

  lemma {:induction false} EntriesReadBack(u: Unlocks, list: seq<Entry>)
    ensures ReadLines(u, EntryLines(list)) == u.(list := TakenAll(u.list, list))
    decreases |list|
  {
    hide ReadLine, EntryLine, Taken;
    if list != [] {
      assert EntryLines(list)[0] == EntryLine(list[0]);
      assert EntryLines(list)[1..] == EntryLines(list[1..]);
      EntryReadsBack(u, list[0]);
      EntriesReadBack(u.(list := Taken(u.list, list[0])), list[1..]);
    }
  }

  predicate PlayerFits(player: string) {
    Trimmed(player) && OneLine(player)
  }

  lemma HeaderLines()
    ensures OneLine(FIRST_LINE) && FIRST_LINE != [] && FIRST_LINE[0] == '#'
    ensures OneLine(SECOND_LINE) && SECOND_LINE != [] && SECOND_LINE[0] == '#'
  {
    hide *;
    FirstHeaderLine();
    SecondHeaderLine();
  }

  lemma FirstHeaderLine()
    ensures OneLine(FIRST_LINE) && FIRST_LINE != [] && FIRST_LINE[0] == '#'
  {
    assert OneLine("# Free Riders Recompiled: ") && OneLine("the achievements this player has unlocked, ");
    assert OneLine("each with");
  }

  lemma SecondHeaderLine()
    ensures OneLine(SECOND_LINE) && SECOND_LINE != [] && SECOND_LINE[0] == '#'
  {
    assert OneLine("# the time it was first awarded (UTC). ");
    assert OneLine("The launcher's Achievements page shows them.");
  }

  lemma FileLinesOk(u: Unlocks)
    requires PlayerFits(u.player)
    ensures forall k | 0 <= k < |FileLines(u)| :: OneLine(FileLines(u)[k])
  {
    hide EntryLine, FIRST_LINE, SECOND_LINE, OneLine;
    HeaderLines();
    forall k | 0 <= k < |u.list| ensures OneLine(EntryLine(u.list[k])) {
      EntryLineParts(u.list[k]);
    }
    PlayerOneLine(u.player);
  }

  lemma PlayerOneLine(player: string)
    requires PlayerFits(player)
    ensures OneLine("player=" + player)
  {
  }

  lemma PlayerLineReads(u: Unlocks, player: string)
    requires PlayerFits(player)
    ensures ReadLines(u, PlayerLine(player)) == if player == "" then u else u.(player := player)
  {
    hide ReadLine;
    if player != "" {
      PlayerReads(u, player);
      assert ReadLines(u, PlayerLine(player)) == ReadLines(u.(player := player), []);
    }
  }

  lemma HeaderReads(u: Unlocks)
    ensures ReadLines(u, [FIRST_LINE, SECOND_LINE]) == u
  {
    hide ReadLine, FIRST_LINE, SECOND_LINE;
    HeaderLines();
    CommentReads(u, FIRST_LINE);
    CommentReads(u, SECOND_LINE);
    assert [FIRST_LINE, SECOND_LINE][1..] == [SECOND_LINE];
    assert ReadLines(u, [SECOND_LINE]) == ReadLines(u, [SECOND_LINE][1..]);
  }

  /** What comes back of a written file. */
  lemma FileReadsBack(u: Unlocks)
    requires PlayerFits(u.player)
    ensures Parsed(Ended(FileLines(u))) == Unlocks(u.player, TakenAll([], u.list))
  {
    hide ReadLine, EntryLine, OneLine, FIRST_LINE, SECOND_LINE, Lines, Trimmed, TakenAll;
    FileLinesOk(u);
    LinesOfEnded(FileLines(u), "");
    assert Ended(FileLines(u)) + "" == Ended(FileLines(u));
    NoLines();
    assert FileLines(u) + [] == FileLines(u);
    var blank := Unlocks("", []);
    var named := Unlocks(u.player, []);
    assert FileLines(u) == [FIRST_LINE, SECOND_LINE] + (PlayerLine(u.player) + EntryLines(u.list));
    ReadLinesTwice(blank, [FIRST_LINE, SECOND_LINE], PlayerLine(u.player) + EntryLines(u.list));
    HeaderReads(blank);
    ReadLinesTwice(blank, PlayerLine(u.player), EntryLines(u.list));
    PlayerLineReads(blank, u.player);
    EntriesReadBack(named, u.list);
  }

  lemma NoLines()
    ensures Lines("") == []
  {
  }

  predicate ListFits(list: seq<Entry>) {
    Distinct(list) && forall k | 0 <= k < |list| :: Readable(list[k])
  }

  lemma {:induction false} TakenAllGrows(list: seq<Entry>, more: seq<Entry>)
    ensures |TakenAll(list, more)| <= |list| + |more|
    decreases |more|
  {
    hide Readable, Has;
    if more != [] {
      TakenAllGrows(Taken(list, more[0]), more[1..]);
    }
  }

  lemma {:induction false} TakenAllIs(list: seq<Entry>, more: seq<Entry>)
    requires Distinct(list)
    ensures TakenAll(list, more) == list + more <==>
      Distinct(list + more) && (forall k | 0 <= k < |more| :: Readable(more[k]))
    decreases |more|
  {
    hide Readable;
    if more == [] {
      assert list + more == list;
    } else {
      assert list + more == (list + [more[0]]) + more[1..];
      if Readable(more[0]) && !Has(list, more[0].id) {
        assert Distinct(list + [more[0]]);
        TakenAllIs(list + [more[0]], more[1..]);
      } else {
        TakenAllGrows(list, more[1..]);
        if Has(list, more[0].id) {
          var k :| 0 <= k < |list| && list[k].id == more[0].id;
          assert (list + more)[k].id == (list + more)[|list|].id;
        }
      }
    }
  }

  lemma ReadLineFits(u: Unlocks, line: string)
    requires PlayerFits(u.player) && OneLine(line)
    ensures PlayerFits(ReadLine(u, line).player)
  {
    hide Trimmed, Find, Number, Trim, IsKey, Has, ParsedUtc;
    TrimTrims(line);
    var clean := Trim(line);
    if Find(clean, '=') < |clean| {
      TrimTrims(clean[Find(clean, '=') + 1..]);
    }
  }

  lemma {:induction false} ReadLinesFit(u: Unlocks, lines: seq<string>)
    requires PlayerFits(u.player) && forall k | 0 <= k < |lines| :: OneLine(lines[k])
    ensures PlayerFits(ReadLines(u, lines).player)
    decreases |lines|
  {
    hide ReadLine, PlayerFits, OneLine;
    if lines != [] {
      ReadLineFits(u, lines[0]);
      ReadLinesFit(ReadLine(u, lines[0]), lines[1..]);
    }
  }

  lemma {:induction false} LinesAreLines(text: string)
    ensures forall k | 0 <= k < |Lines(text)| :: OneLine(Lines(text)[k])
  {
    hide Find;
    if text != [] {
      var at := Find(text, '\n');
      assert OneLine(text[..at]);
      if at < |text| {
        LinesAreLines(text[at + 1..]);
      } else {
        assert text[..at] == text;
      }
    }
  }

  /** A file reads back as it was written exactly when the ids differ and have at most nine
      digits, every time has a year of four digits, and the player's name is one trimmed line. */
  lemma FileRoundTrip(u: Unlocks)
    ensures Parsed(Ended(FileLines(u))) == u <==> PlayerFits(u.player) && ListFits(u.list)
  {
    hide PlayerFits, Ended, FileLines, Lines, ReadLines, Readable, OneLine;
    if PlayerFits(u.player) {
      FileReadsBack(u);
      TakenAllIs([], u.list);
      assert [] + u.list == u.list;
    } else {
      var text := Ended(FileLines(u));
      LinesAreLines(text);
      NoPlayer();
      ReadLinesFit(Unlocks("", []), Lines(text));
    }
  }

  lemma NoPlayer()
    ensures PlayerFits("")
  {
  }
}
