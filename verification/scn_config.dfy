/**
  The editor of the SCN signal mappings: the writer and the parser of ug405.cfg.

  RoundTripIff says for which mappings parsing what was written gives the mappings back; RestSurvives
  and SavesGrow say what a save does to the rest of the file.
 */
module ScnConfig {
  import opened Bytes

  // ---- Characters and strings -------------------------------------------------------------------

  predicate IsSpace(c: char) {
    var n := c as int;
    9 <= n <= 13 || 28 <= n <= 32 || n == 0x85 || n == 0xA0 || n == 0x1680 || 0x2000 <= n <= 0x200A
    || n == 0x2028 || n == 0x2029 || n == 0x202F || n == 0x205F || n == 0x3000
  }

  predicate IsNewline(c: char) {
    c == '\n' || c == '\r'
  }

  predicate IsDigit(c: char) {
    '0' <= c <= '9'
  }

  predicate IsAlnum(c: char) {
    'A' <= c <= 'Z' || 'a' <= c <= 'z' || IsDigit(c)
  }

  function UpperChar(c: char): char {
    if 'a' <= c <= 'z' then (c as int - 32) as char else c
  }

  function LowerChar(c: char): char {
    if 'A' <= c <= 'Z' then (c as int + 32) as char else c
  }

  function Upper(s: string): string {
    seq(|s|, i requires 0 <= i < |s| => UpperChar(s[i]))
  }

  function Lower(s: string): string {
    seq(|s|, i requires 0 <= i < |s| => LowerChar(s[i]))
  }

  function StripLeft(s: string): string {
    if s != "" && IsSpace(s[0]) then StripLeft(s[1..]) else s
  }

  function StripRight(s: string): string {
    if s != "" && IsSpace(s[|s| - 1]) then StripRight(s[..|s| - 1]) else s
  }

  function Strip(s: string): string {
    StripRight(StripLeft(s))
  }

  /** The number of characters before the first c. */
  function IndexOf(s: string, c: char): (i: nat)
    ensures i <= |s| && c !in s[..i] && (i < |s| ==> s[i] == c)
  {
    if s == "" || s[0] == c then 0 else IndexOf(s[1..], c) + 1
  }

  function CutComment(s: string): string {
    s[..IndexOf(s, '#')]
  }

  function Digits(n: nat): string {
    if n < 10 then [(n + 48) as char] else Digits(n / 10) + [(n % 10 + 48) as char]
  }

  predicate AllDigits(s: string) {
    forall i :: 0 <= i < |s| ==> IsDigit(s[i])
  }

  function Number(s: string): nat
    requires AllDigits(s)
  {
    if s == "" then 0 else Number(s[..|s| - 1]) * 10 + (s[|s| - 1] as int - 48)
  }

  predicate AllSpace(s: string) {
    forall c :: c in s ==> IsSpace(c)
  }

  predicate Stripped(s: string) {
    s == "" || (!IsSpace(s[0]) && !IsSpace(s[|s| - 1]))
  }

  lemma {:induction false} StripLeftOf(pre: string, s: string)
    requires AllSpace(pre) && (s == "" || !IsSpace(s[0]))
    ensures StripLeft(pre + s) == s
  {
    if pre == "" {
      assert pre + s == s;
    } else {
      assert (pre + s)[1..] == pre[1..] + s;
      assert pre[0] in pre;
      StripLeftOf(pre[1..], s);
    }
  }

  lemma {:induction false} StripRightOf(s: string, post: string)
    requires AllSpace(post) && (s == "" || !IsSpace(s[|s| - 1]))
    ensures StripRight(s + post) == s
  {
    if post == "" {
      assert s + post == s;
    } else {
      var n := |post| - 1;
      assert (s + post)[..|s + post| - 1] == s + post[..n];
      assert post[n] in post;
      StripRightOf(s, post[..n]);
    }
  }

  /** Stripping removes exactly the spaces around a stripped text. */
  lemma StripOf(pre: string, s: string, post: string)
    requires AllSpace(pre) && AllSpace(post) && Stripped(s)
    ensures Strip(pre + s + post) == s
  {
    if s == "" {
      assert pre + s + post == (pre + post) + "";
      StripLeftOf(pre + post, "");
    } else {
      assert pre + s + post == pre + (s + post);
      StripLeftOf(pre, s + post);
      StripRightOf(s, post);
    }
  }

  /** Every text is a stripped text between spaces. */
  lemma {:induction false} StripParts(s: string) returns (pre: string, post: string)
    ensures s == pre + Strip(s) + post && AllSpace(pre) && AllSpace(post) && Stripped(Strip(s))
  {
    var l := StripLeft(s);
    pre := LeftPart(s);
    post := RightPart(l);
    assert s == pre + (Strip(s) + post);
  }

  lemma {:induction false} LeftPart(s: string) returns (pre: string)
    ensures s == pre + StripLeft(s) && AllSpace(pre) && (StripLeft(s) == "" || !IsSpace(StripLeft(s)[0]))
  {
    if s != "" && IsSpace(s[0]) {
      var p := LeftPart(s[1..]);
      pre := [s[0]] + p;
    } else {
      pre := "";
    }
  }

  lemma {:induction false} RightPart(s: string) returns (post: string)
    ensures s == StripRight(s) + post && AllSpace(post)
    ensures StripRight(s) == "" || !IsSpace(StripRight(s)[|StripRight(s)| - 1])
    ensures StripRight(s) <= s
  {
    if s != "" && IsSpace(s[|s| - 1]) {
      var n := |s| - 1;
      var p := RightPart(s[..n]);
      post := p + [s[n]];
      assert StripRight(s) == StripRight(s[..n]);
      assert s == s[..n] + [s[n]] == StripRight(s) + post;
    } else {
      post := "";
    }
  }

  lemma {:induction false} DigitsRead(n: nat)
    ensures Digits(n) != "" && AllDigits(Digits(n)) && Number(Digits(n)) == n
  {
    if n >= 10 {
      DigitsRead(n / 10);
      assert Digits(n)[..|Digits(n)| - 1] == Digits(n / 10);
    }
  }

  // ---- The mappings --------------------------------------------------------------------------------

  datatype ControlLine = ControlLine(field: string, bit: Option<int>, signal: string)
  datatype ReplyLine = ReplyLine(field: string, bit: Option<int>, signal: string, inverted: bool)
  datatype Scn = Scn(name: string, control: seq<ControlLine>, reply: seq<ReplyLine>)

  // ---- Lines of a file; a line includes its end ----------------------------------------------------

  function SplitLines(text: string): seq<string> {
    if text == "" then []
    else if IsNewline(text[0]) then [text[..1]] + SplitLines(text[1..])
    else
      var rest := SplitLines(text[1..]);
      if rest == [] then [text[..1]] else [text[..1] + rest[0]] + rest[1..]
  }

  function Join(lines: seq<string>): string {
    if lines == [] then "" else lines[0] + Join(lines[1..])
  }

  predicate NoNewline(s: string) {
    forall c :: c in s ==> !IsNewline(c)
  }

  predicate Terminated(line: string) {
    line != "" && IsNewline(line[|line| - 1]) && NoNewline(line[..|line| - 1])
  }

  lemma {:induction false} SplitFirst(body: string, end: char, rest: string)
    requires NoNewline(body) && IsNewline(end)
    ensures SplitLines(body + [end] + rest) == [body + [end]] + SplitLines(rest)
  {
    var text := body + [end] + rest;
    if body == "" {
      assert text[1..] == rest && text[..1] == [end] && body + [end] == [end];
    } else {
      SplitFirst(body[1..], end, rest);
      assert text[1..] == body[1..] + [end] + rest;
      assert text[0] == body[0] && body[0] in body;
      assert text[..1] + (body[1..] + [end]) == body + [end];
    }
  }

  lemma SplitTerminated(line: string, rest: string)
    requires Terminated(line)
    ensures SplitLines(line + rest) == [line] + SplitLines(rest)
  {
    hide SplitLines;
    var n := |line| - 1;
    assert line == line[..n] + [line[n]];
    SplitFirst(line[..n], line[n], rest);
  }

  lemma {:induction false} SplitJoined(lines: seq<string>, rest: string)
    requires forall i :: 0 <= i < |lines| ==> Terminated(lines[i])
    ensures SplitLines(Join(lines) + rest) == lines + SplitLines(rest)
  {
    hide SplitLines, Terminated;
    if lines == [] {
      assert Join(lines) + rest == rest;
    } else {
      SplitJoined(lines[1..], rest);
      SplitTerminated(lines[0], Join(lines[1..]) + rest);
      assert Join(lines) + rest == lines[0] + (Join(lines[1..]) + rest);
      assert lines + SplitLines(rest) == [lines[0]] + (lines[1..] + SplitLines(rest));
    }
  }

  lemma {:induction false} SplitUnended(body: string)
    requires body != "" && NoNewline(body)
    ensures SplitLines(body) == [body]
  {
    assert body[0] in body;
    if |body| > 1 {
      SplitUnended(body[1..]);
      assert body == body[..1] + body[1..];
    } else {
      assert body[1..] == "" && body[..1] == body;
    }
  }

  /** A line that is terminated, or lacks its end. */
  predicate Ending(line: string) {
    Terminated(line) || (line != "" && NoNewline(line))
  }

  /** Every line but the last is terminated, and the last one is or lacks its end. */
  predicate Shaped(lines: seq<string>) {
    && (forall i :: 0 <= i < |lines| - 1 ==> Terminated(lines[i]))
    && (lines != [] ==> Ending(lines[|lines| - 1]))
  }

  /** The lines of a text are shaped so, and joined they are the text. */
  lemma {:induction false} SplitShape(text: string)
    ensures var lines := SplitLines(text);
            Join(lines) == text && (text != "" ==> lines != []) && Shaped(lines)
  {
    hide Shaped;
    if text != "" {
      SplitShape(text[1..]);
      FirstCharShape(text[0], text[1..], SplitLines(text[1..]));
      assert text == [text[0]] + text[1..] && text[..1] == [text[0]];
    } else {
      NoLinesShaped();
    }
  }

  lemma NoLinesShaped()
    ensures Shaped([])
  {}

  lemma FirstCharShape(c: char, text: string, rest: seq<string>)
    requires Join(rest) == text && (text != "" ==> rest != []) && Shaped(rest)
    ensures var lines :=
              if IsNewline(c) then [[c]] + rest else if rest == [] then [[c]] else [[c] + rest[0]] + rest[1..];
            Join(lines) == [c] + text && Shaped(lines)
  {
    hide Terminated, Ending, Join;
    OneCharEnds(c);
    if IsNewline(c) {
      JoinCons([c], rest);
    } else if rest == [] {
      JoinCons([c], []);
      assert [c] + "" == [c];
    } else {
      PrependChar(c, rest[0]);
      JoinCons(rest[0], rest[1..]);
      assert [rest[0]] + rest[1..] == rest;
      JoinCons([c] + rest[0], rest[1..]);
      assert [c] + rest[0] + Join(rest[1..]) == [c] + (rest[0] + Join(rest[1..]));
    }
  }

  lemma JoinCons(line: string, rest: seq<string>)
    ensures Join([line] + rest) == line + Join(rest)
    ensures Join([line]) == line + Join([]) == line
  {
    assert ([line] + rest)[1..] == rest && [line][1..] == [];
    assert line + "" == line;
  }

  lemma OneCharEnds(c: char)
    ensures IsNewline(c) ==> Terminated([c])
    ensures Ending([c])
  {}

  lemma PrependChar(c: char, line: string)
    requires !IsNewline(c)
    ensures Terminated(line) ==> Terminated([c] + line)
    ensures Ending(line) ==> Ending([c] + line)
  {
    if line != "" {
      assert ([c] + line)[..|line|] == [c] + line[..|line| - 1];
    }
  }

  // ---- The parser ----------------------------------------------------------------------------------

  datatype Line =
    | Skip
    | OpensScn
    | Closes
    | Names(name: string)
    | Controls(control: ControlLine)
    | Replies(reply: ReplyLine)

  function AlnumRun(s: string): (n: nat)
    ensures n <= |s| && (forall i :: 0 <= i < n ==> IsAlnum(s[i])) && (n < |s| ==> !IsAlnum(s[n]))
  {
    if s == "" || !IsAlnum(s[0]) then 0 else AlnumRun(s[1..]) + 1
  }

  /** A field name, and a bit number in brackets where there is one. */
  function MatchField(s: string): Option<(string, Option<int>)> {
    var n := AlnumRun(s);
    if n == 0 then None
    else if n == |s| then Some((s, None))
    else if |s| >= n + 3 && s[n] == '[' && s[|s| - 1] == ']' && AllDigits(s[n + 1..|s| - 1])
    then Some((s[..n], Some(Number(s[n + 1..|s| - 1]))))
    else None
  }

  const CONTROL := "utcControl"
  const REPLY := "utcReply"

  function MatchKey(k: string, v: string, inverted: bool): Line {
    if Lower(k) == "name" then Names(v)
    else if CONTROL <= k then
      match MatchField(k[|CONTROL|..])
      case None => Skip
      case Some((field, bit)) => Controls(ControlLine(field, bit, v))
    else if REPLY <= k then
      match MatchField(k[|REPLY|..])
      case None => Skip
      case Some((field, bit)) => Replies(ReplyLine(field, bit, v, inverted))
    else Skip
  }

  function ClassifyKey(key: string, v: string): Line {
    if key != "" && key[|key| - 1] == '!' then MatchKey(Strip(key[..|key| - 1]), v, true) else MatchKey(key, v, false)
  }

  function Content(raw: string): string {
    Strip(CutComment(raw))
  }

  function Classify(raw: string): Line {
    var line := Content(raw);
    if line == "" then Skip
    else if Upper(line) == "[SCN]" then OpensScn
    else if line[0] == '[' then Closes
    else
      var i := IndexOf(line, '=');
      if i == |line| then Skip else ClassifyKey(Strip(line[..i]), Strip(line[i + 1..]))
  }

  /** The SCNs so far, and whether the last one is still being read. */
  datatype Reading = Reading(scns: seq<Scn>, open: bool)

  function SetLast(scns: seq<Scn>, scn: Scn): seq<Scn>
    requires scns != []
  {
    scns[..|scns| - 1] + [scn]
  }

  function ReadLine(st: Reading, line: Line): Reading {
    match line
    case OpensScn => Reading(st.scns + [Scn("", [], [])], true)
    case Closes => Reading(st.scns, false)
    case Skip => st
    case _ =>
      if !st.open || st.scns == [] then st
      else Reading(SetLast(st.scns, AddLine(st.scns[|st.scns| - 1], line)), true)
  }

  function AddLine(scn: Scn, line: Line): Scn {
    match line
    case Names(name) => scn.(name := name)
    case Controls(c) => scn.(control := scn.control + [c])
    case Replies(r) => scn.(reply := scn.reply + [r])
    case _ => scn
  }

  function ReadLines(st: Reading, lines: seq<string>): Reading
    decreases |lines|
  {
    if lines == [] then st else ReadLines(ReadLine(st, Classify(lines[0])), lines[1..])
  }

  function Parse(text: string): seq<Scn> {
    ReadLines(Reading([], false), SplitLines(text)).scns
  }

  method ParseScns(text: string) returns (scns: seq<Scn>)
    ensures scns == Parse(text)
  {
    hide Classify, SplitLines;
    var lines := SplitLines(text);
    scns := [];
    var open := false;
    for i := 0 to |lines|
      invariant open ==> scns != []
      invariant ReadLines(Reading(scns, open), lines[i..]) == ReadLines(Reading([], false), lines)
    {
      assert lines[i..][0] == lines[i] && lines[i..][1..] == lines[i + 1..];
      match Classify(lines[i])
      case OpensScn => scns, open := scns + [Scn("", [], [])], true;
      case Closes => open := false;
      case Names(name) => if open { scns := SetLast(scns, scns[|scns| - 1].(name := name)); }
      case Controls(c) =>
        if open {
          scns := SetLast(scns, scns[|scns| - 1].(control := scns[|scns| - 1].control + [c]));
        }
      case Replies(r) =>
        if open {
          scns := SetLast(scns, scns[|scns| - 1].(reply := scns[|scns| - 1].reply + [r]));
        }
      case Skip =>
    }
  }

  // ---- The writer ----------------------------------------------------------------------------------

  function Spaces(n: int): string {
    if n <= 0 then "" else " " + Spaces(n - 1)
  }

  function Pad(s: string, width: nat): string {
    s + Spaces(width - |s|)
  }

  function BitText(bit: Option<int>): string {
    match bit
    case None => ""
    case Some(n) => "[" + (if n < 0 then "-" + Digits(-n) else Digits(n)) + "]"
  }

  function ControlKey(c: ControlLine): string {
    CONTROL + c.field + Pad(BitText(c.bit), 4)
  }

  function ReplyKey(r: ReplyLine): string {
    REPLY + r.field + Pad(BitText(r.bit), 6) + (if r.inverted then "!" else " ")
  }

  function Assignment(key: string, v: string): string {
    key + "= " + v + "\n"
  }

  function ReplyTexts(rs: seq<ReplyLine>): seq<string> {
    seq(|rs|, i requires 0 <= i < |rs| => Assignment(ReplyKey(rs[i]), rs[i].signal))
  }

  function ControlTexts(cs: seq<ControlLine>): seq<string> {
    seq(|cs|, i requires 0 <= i < |cs| => Assignment(ControlKey(cs[i]), cs[i].signal))
  }

  function ScnTexts(scn: Scn): seq<string> {
    ["\n", "[SCN]\n", Assignment("name ", scn.name)] + ReplyTexts(scn.reply)
    + (if scn.control != [] then ["\n"] else []) + ControlTexts(scn.control)
  }

  /** The lines of an SCN, for example. */
  lemma SampleTexts()
    ensures ScnTexts(Scn("J1", [ControlLine("Fn", Some(1), "c"), ControlLine("PV", None, "d")],
                         [ReplyLine("Gn", Some(3), "a", true), ReplyLine("DF", None, "b", false)]))
         == ["\n", "[SCN]\n", "name = J1\n", "utcReplyGn[3]   != a\n", "utcReplyDF       = b\n", "\n",
             "utcControlFn[1] = c\n", "utcControlPV    = d\n"]
  {
    hide Assignment, ReplyKey, ControlKey;
    SampleKeys();
    SampleLines();
    var controls, replies :=
      [ControlLine("Fn", Some(1), "c"), ControlLine("PV", None, "d")],
      [ReplyLine("Gn", Some(3), "a", true), ReplyLine("DF", None, "b", false)];
    assert ReplyTexts(replies) == ["utcReplyGn[3]   != a\n", "utcReplyDF       = b\n"];
    assert ControlTexts(controls) == ["utcControlFn[1] = c\n", "utcControlPV    = d\n"];
  }

  lemma SampleKeys()
    ensures ReplyKey(ReplyLine("Gn", Some(3), "a", true)) == "utcReplyGn[3]   !"
    ensures ReplyKey(ReplyLine("DF", None, "b", false)) == "utcReplyDF       "
    ensures ControlKey(ControlLine("Fn", Some(1), "c")) == "utcControlFn[1] "
    ensures ControlKey(ControlLine("PV", None, "d")) == "utcControlPV    "
  {
    assert BitText(Some(3)) == "[3]" && BitText(Some(1)) == "[1]";
    assert Spaces(3) == "   " && Spaces(6) == "      " && Spaces(4) == "    " && Spaces(1) == " ";
  }

  lemma SampleLines()
    ensures Assignment("name ", "J1") == "name = J1\n"
    ensures Assignment("utcReplyGn[3]   !", "a") == "utcReplyGn[3]   != a\n"
    ensures Assignment("utcReplyDF       ", "b") == "utcReplyDF       = b\n"
    ensures Assignment("utcControlFn[1] ", "c") == "utcControlFn[1] = c\n"
    ensures Assignment("utcControlPV    ", "d") == "utcControlPV    = d\n"
  {}

  function ScnsTexts(scns: seq<Scn>): seq<string> {
    if scns == [] then [] else ScnsTexts(scns[..|scns| - 1]) + ScnTexts(scns[|scns| - 1])
  }

  datatype Zone = InHeader | InScn | InLive
  datatype Kept = Kept(zone: Zone, header: seq<string>, live: seq<string>)

  function Tag(raw: string): string {
    Upper(Content(raw))
  }

  function KeepLine(k: Kept, line: string): Kept {
    var zone := if Tag(line) == "[SCN]" then InScn else if Tag(line) == "[LIVE]" then InLive else k.zone;
    match zone
    case InHeader => Kept(zone, k.header + [line], k.live)
    case InLive => Kept(zone, k.header, k.live + [line])
    case InScn => Kept(zone, k.header, k.live)
  }

  function KeepLines(k: Kept, lines: seq<string>): Kept
    decreases |lines|
  {
    if lines == [] then k else KeepLines(KeepLine(k, lines[0]), lines[1..])
  }

  /** What a save keeps of a file: its header and its LIVE sections. */
  function Sections(text: string): Kept {
    KeepLines(Kept(InHeader, [], []), SplitLines(text))
  }

  function Written(file: string, scns: seq<Scn>): string {
    Join(Sections(file).header + ScnsTexts(scns) + ["\n\n"] + Sections(file).live)
  }

  method WriteScn(scn: Scn) returns (out: seq<string>)
    ensures out == ScnTexts(scn)
  {
    hide ReplyKey, ControlKey;
    out := ["\n", "[SCN]\n", "name = " + scn.name + "\n"];
    assert "name = " + scn.name + "\n" == Assignment("name ", scn.name);
    ghost var start := out;
    for j := 0 to |scn.reply|
      invariant out == start + ReplyTexts(scn.reply)[..j]
    {
      out := out + [ReplyKey(scn.reply[j]) + "= " + scn.reply[j].signal + "\n"];
    }
    assert out == start + ReplyTexts(scn.reply);
    if scn.control != [] {
      out := out + ["\n"];
    }
    ghost var middle := out;
    for j := 0 to |scn.control|
      invariant out == middle + ControlTexts(scn.control)[..j]
    {
      out := out + [ControlKey(scn.control[j]) + "= " + scn.control[j].signal + "\n"];
    }
    assert out == middle + ControlTexts(scn.control);
  }

  method WriteScns(file: string, scns: seq<Scn>) returns (text: string)
    ensures text == Written(file, scns)
  {
    hide Tag, SplitLines, ScnTexts, Join;
    var lines := SplitLines(file);
    var header, live: seq<string> := [], [];
    var zone := InHeader;
    for i := 0 to |lines|
      invariant KeepLines(Kept(zone, header, live), lines[i..]) == Sections(file)
    {
      var line := lines[i];
      assert lines[i..][0] == line && lines[i..][1..] == lines[i + 1..];
      if Tag(line) == "[SCN]" {
        zone := InScn;
      } else if Tag(line) == "[LIVE]" {
        zone := InLive;
      }
      if zone == InHeader {
        header := header + [line];
      } else if zone == InLive {
        live := live + [line];
      }
    }
    var out := header;
    for i := 0 to |scns|
      invariant out == header + ScnsTexts(scns[..i])
    {
      assert scns[..i + 1][..i] == scns[..i];
      var texts := WriteScn(scns[i]);
      out := out + texts;
    }
    assert scns[..|scns|] == scns;
    out := out + ["\n\n"] + live;
    text := Join(out);
  }

  // ---- Clean mappings ------------------------------------------------------------------------------

  predicate CleanText(s: string) {
    Stripped(s) && NoNewline(s) && '#' !in s
  }

  predicate CleanField(f: string) {
    f != "" && forall i :: 0 <= i < |f| ==> IsAlnum(f[i])
  }

  predicate CleanBit(bit: Option<int>) {
    bit.Some? ==> bit.value >= 0
  }

  predicate CleanControl(c: ControlLine) {
    CleanField(c.field) && CleanBit(c.bit) && CleanText(c.signal)
  }

  predicate CleanReply(r: ReplyLine) {
    CleanField(r.field) && CleanBit(r.bit) && CleanText(r.signal)
  }

  predicate Clean(scn: Scn) {
    && CleanText(scn.name)
    && (forall i :: 0 <= i < |scn.control| ==> CleanControl(scn.control[i]))
    && (forall i :: 0 <= i < |scn.reply| ==> CleanReply(scn.reply[i]))
  }

  predicate AllClean(scns: seq<Scn>) {
    forall i :: 0 <= i < |scns| ==> Clean(scns[i])
  }

  // ---- What is written is read back ------------------------------------------------------------------

  /** A key as it is written: not blank, no section header, and free of the characters with a meaning. */
  predicate PlainKey(key: string) {
    key != "" && !IsSpace(key[0]) && key[0] != '[' && NoNewline(key) && '=' !in key && '#' !in key
  }

  lemma IndexIs(s: string, c: char, i: nat)
    requires i < |s| && s[i] == c && c !in s[..i]
    ensures IndexOf(s, c) == i
  {
    var j := IndexOf(s, c);
    forall k | 0 <= k < i ensures s[k] != c {
      assert s[..i][k] in s[..i];
    }
    forall k | 0 <= k < j ensures s[k] != c {
      assert s[..j][k] in s[..j];
    }
  }

  lemma NoComment(s: string)
    requires '#' !in s
    ensures CutComment(s) == s
  {
    assert forall i :: 0 <= i < |s| ==> s[i] in s;
  }

  /** What is left of an assignment once the comment and the spaces around it are gone. */
  lemma AssignmentContent(key: string, v: string)
    requires PlainKey(key) && CleanText(v)
    ensures Content(Assignment(key, v)) == if v == "" then key + "=" else key + "= " + v
  {
    hide StripLeft, StripRight, IndexOf;
    var raw := Assignment(key, v);
    NoComment(raw);
    if v == "" {
      assert raw == "" + (key + "=") + " \n";
      StripOf("", key + "=", " \n");
    } else {
      assert raw == "" + (key + "= " + v) + "\n";
      StripOf("", key + "= " + v, "\n");
    }
  }

  lemma AssignmentRead(key: string, v: string)
    requires PlainKey(key) && CleanText(v)
    ensures Classify(Assignment(key, v)) == ClassifyKey(Strip(key), v)
    ensures Tag(Assignment(key, v)) != "[SCN]" && Tag(Assignment(key, v)) != "[LIVE]"
    ensures Terminated(Assignment(key, v))
  {
    hide Strip, CutComment, ClassifyKey;
    AssignmentContent(key, v);
    var line := Content(Assignment(key, v));
    assert line[0] == key[0] && line[|key|] == '=' && line[..|key|] == key;
    assert Upper(line)[0] == UpperChar(key[0]) != '[';
    IndexIs(line, '=', |key|);
    if v == "" {
      assert line[|key| + 1..] == "" == "" + "" + "";
      StripOf("", "", "");
    } else {
      assert line[|key| + 1..] == " " + v + "";
      StripOf(" ", v, "");
    }
    var raw := Assignment(key, v);
    assert raw[..|raw| - 1] == key + "= " + v;
  }

  lemma SpacesAreSpace(n: int)
    ensures AllSpace(Spaces(n)) && AllSpace(Spaces(n) + " ") && NoNewline(Spaces(n)) && '=' !in Spaces(n)
        && '#' !in Spaces(n)
  {}

  predicate BitShape(s: string) {
    s == "" || (|s| >= 3 && s[0] == '[' && s[|s| - 1] == ']' && AllDigits(s[1..|s| - 1]))
  }

  lemma BitTextShape(bit: Option<int>)
    requires CleanBit(bit)
    ensures BitShape(BitText(bit))
    ensures bit.Some? ==> |BitText(bit)| >= 3 && Number(BitText(bit)[1..|BitText(bit)| - 1]) == bit.value
    ensures bit.None? ==> BitText(bit) == ""
  {
    if bit.Some? {
      DigitsRead(bit.value);
      assert BitText(bit)[1..|BitText(bit)| - 1] == Digits(bit.value);
    }
  }

  lemma {:induction false} AlnumRunOf(f: string, rest: string)
    requires forall i :: 0 <= i < |f| ==> IsAlnum(f[i])
    requires rest == "" || !IsAlnum(rest[0])
    ensures AlnumRun(f + rest) == |f|
  {
    if f == "" {
      assert f + rest == rest;
    } else {
      assert (f + rest)[1..] == f[1..] + rest;
      AlnumRunOf(f[1..], rest);
    }
  }

  lemma FieldMatched(field: string, bit: Option<int>)
    requires CleanField(field) && CleanBit(bit)
    ensures MatchField(field + BitText(bit)) == Some((field, bit))
  {
    hide BitText, AlnumRun, Number;
    BitTextShape(bit);
    var b := BitText(bit);
    AlnumRunOf(field, b);
    var s := field + b;
    assert s[..|field|] == field;
    if bit.None? {
      assert s == field;
    } else {
      assert s[|field| + 1..|s| - 1] == b[1..|b| - 1];
    }
  }

  /** A key without its padding: it begins and ends with visible characters. */
  lemma KeyShape(prefix: string, field: string, bit: Option<int>)
    requires prefix == CONTROL || prefix == REPLY
    requires CleanField(field) && CleanBit(bit)
    ensures var k := prefix + field + BitText(bit);
            && PlainKey(k) && Stripped(k) && k[|k| - 1] != '!' && k[0] == 'u'
  {
    hide BitText, AlnumRun, Number;
    BitTextShape(bit);
    var b := BitText(bit);
    forall c | c in b ensures c != '=' && c != '#' && !IsNewline(c) {
      var i :| 0 <= i < |b| && b[i] == c;
      if 0 < i < |b| - 1 {
        assert IsDigit(b[1..|b| - 1][i - 1]);
      }
    }
    forall c | c in field ensures c != '=' && c != '#' && !IsNewline(c) {
      var i :| 0 <= i < |field| && field[i] == c;
    }
  }

  lemma KeyMatched(prefix: string, field: string, bit: Option<int>, v: string, inverted: bool)
    requires prefix == CONTROL || prefix == REPLY
    requires CleanField(field) && CleanBit(bit)
    ensures MatchKey(prefix + field + BitText(bit), v, inverted)
         == if prefix == CONTROL then Controls(ControlLine(field, bit, v))
              else Replies(ReplyLine(field, bit, v, inverted))
  {
    hide BitText, MatchField;
    var k := prefix + field + BitText(bit);
    FieldMatched(field, bit);
    assert Lower(k)[0] == 'u';
    assert k[|prefix|..] == field + BitText(bit);
    assert prefix <= k;
    if prefix == REPLY {
      assert k[3] == 'R';
    }
  }

  lemma ControlRead(c: ControlLine)
    requires CleanControl(c)
    ensures Classify(Assignment(ControlKey(c), c.signal)) == Controls(c)
    ensures var t := Tag(Assignment(ControlKey(c), c.signal)); t != "[SCN]" && t != "[LIVE]"
    ensures Terminated(Assignment(ControlKey(c), c.signal))
  {
    hide Classify, MatchKey, Strip, BitText, Tag, Terminated;
    var k := CONTROL + c.field + BitText(c.bit);
    var pad := Spaces(4 - |BitText(c.bit)|);
    KeyShape(CONTROL, c.field, c.bit);
    SpacesAreSpace(4 - |BitText(c.bit)|);
    assert ControlKey(c) == "" + k + pad;
    StripOf("", k, pad);
    AssignmentRead(ControlKey(c), c.signal);
    KeyMatched(CONTROL, c.field, c.bit, c.signal, false);
  }

  lemma ReplyKeyRead(r: ReplyLine)
    requires CleanReply(r)
    ensures PlainKey(ReplyKey(r))
    ensures ClassifyKey(Strip(ReplyKey(r)), r.signal)
       == MatchKey(REPLY + r.field + BitText(r.bit), r.signal, r.inverted)
  {
    hide MatchKey, Strip, BitText, PlainKey, CleanField, CleanText, CleanBit, AllSpace, Stripped, NoNewline, Spaces;
    var k := REPLY + r.field + BitText(r.bit);
    var pad := Spaces(6 - |BitText(r.bit)|);
    KeyShape(REPLY, r.field, r.bit);
    SpacesAreSpace(6 - |BitText(r.bit)|);
    PlainKeyEnds(k, pad, if r.inverted then '!' else ' ');
    if r.inverted {
      InvertedKey(k, pad);
    } else {
      PaddedKey(k, pad + " ");
    }
    assert ReplyKey(r) == k + pad + [if r.inverted then '!' else ' '];
    assert k + pad + " " == k + (pad + " ");
  }

  lemma PlainKeyEnds(k: string, pad: string, end: char)
    requires PlainKey(k) && NoNewline(pad) && '=' !in pad && '#' !in pad && (end == '!' || end == ' ')
    ensures PlainKey(k + pad + [end])
  {}

  lemma PaddedKey(k: string, pad: string)
    requires Stripped(k) && AllSpace(pad)
    ensures Strip(k + pad) == k
  {
    hide Strip;
    assert k + pad == "" + k + pad;
    StripOf("", k, pad);
  }

  lemma InvertedKey(k: string, pad: string)
    requires Stripped(k) && k != "" && AllSpace(pad)
    ensures var key := Strip(k + pad + "!");
            key != "" && key[|key| - 1] == '!' && Strip(key[..|key| - 1]) == k
  {
    hide Strip;
    PaddedKey(k + pad + "!", "");
    assert k + pad + "!" + "" == k + pad + "!";
    assert (k + pad + "!")[..|k + pad|] == k + pad;
    PaddedKey(k, pad);
  }

  lemma ReplyRead(r: ReplyLine)
    requires CleanReply(r)
    ensures Classify(Assignment(ReplyKey(r), r.signal)) == Replies(r)
    ensures var t := Tag(Assignment(ReplyKey(r), r.signal)); t != "[SCN]" && t != "[LIVE]"
    ensures Terminated(Assignment(ReplyKey(r), r.signal))
  {
    hide Classify, ClassifyKey, MatchKey, Strip, BitText, Tag, Terminated, ReplyKey, PlainKey, Assignment;
    ReplyKeyRead(r);
    AssignmentRead(ReplyKey(r), r.signal);
    KeyMatched(REPLY, r.field, r.bit, r.signal, r.inverted);
  }

  lemma {:induction false} ReadLinesAppend(st: Reading, a: seq<string>, b: seq<string>)
    ensures ReadLines(st, a + b) == ReadLines(ReadLines(st, a), b)
    decreases |a|
  {
    hide ReadLine, Classify;
    if a == [] {
      assert a + b == b;
    } else {
      assert (a + b)[1..] == a[1..] + b;
      ReadLinesAppend(ReadLine(st, Classify(a[0])), a[1..], b);
    }
  }

  lemma {:induction false} RepliesRead(scns: seq<Scn>, scn: Scn, rs: seq<ReplyLine>)
    requires forall i :: 0 <= i < |rs| ==> CleanReply(rs[i])
    ensures ReadLines(Reading(scns + [scn], true), ReplyTexts(rs))
       == Reading(scns + [scn.(reply := scn.reply + rs)], true)
    decreases |rs|
  {
    hide Classify, CleanReply, Assignment, ReplyKey;
    if rs == [] {
      assert scn.reply + rs == scn.reply;
    } else {
      ReplyRead(rs[0]);
      assert ReplyTexts(rs)[1..] == ReplyTexts(rs[1..]);
      var next := scn.(reply := scn.reply + [rs[0]]);
      assert SetLast(scns + [scn], next) == scns + [next];
      RepliesRead(scns, next, rs[1..]);
      assert next.reply + rs[1..] == scn.reply + rs;
    }
  }

  lemma {:induction false} ControlsRead(scns: seq<Scn>, scn: Scn, cs: seq<ControlLine>)
    requires forall i :: 0 <= i < |cs| ==> CleanControl(cs[i])
    ensures ReadLines(Reading(scns + [scn], true), ControlTexts(cs))
       == Reading(scns + [scn.(control := scn.control + cs)], true)
    decreases |cs|
  {
    hide Classify, CleanControl, Assignment, ControlKey;
    if cs == [] {
      assert scn.control + cs == scn.control;
    } else {
      ControlRead(cs[0]);
      assert ControlTexts(cs)[1..] == ControlTexts(cs[1..]);
      var next := scn.(control := scn.control + [cs[0]]);
      assert SetLast(scns + [scn], next) == scns + [next];
      ControlsRead(scns, next, cs[1..]);
      assert next.control + cs[1..] == scn.control + cs;
    }
  }

  lemma BlankLine()
    ensures Content("\n") == "" && Classify("\n") == Skip && Terminated("\n")
    ensures Tag("\n") != "[SCN]" && Tag("\n") != "[LIVE]"
  {
    NoComment("\n");
    PaddedKey("", "\n");
    assert "" + "\n" == "\n";
  }

  lemma ScnLine()
    ensures Classify("[SCN]\n") == OpensScn && Tag("[SCN]\n") == "[SCN]" && Terminated("[SCN]\n")
  {
    NoComment("[SCN]\n");
    PaddedKey("[SCN]", "\n");
    assert "[SCN]" + "\n" == "[SCN]\n";
    assert Upper("[SCN]") == "[SCN]";
    assert "[SCN]\n"[..5] == "[SCN]";
  }

  lemma NameRead(name: string)
    requires CleanText(name)
    ensures Classify(Assignment("name ", name)) == Names(name)
    ensures var t := Tag(Assignment("name ", name)); t != "[SCN]" && t != "[LIVE]"
    ensures Terminated(Assignment("name ", name))
  {
    hide Classify, Tag, Assignment, Terminated, Strip;
    AssignmentRead("name ", name);
    PaddedKey("name", " ");
    assert "name" + " " == "name ";
    assert Lower("name") == "name";
  }

  lemma ScnRead(st: Reading, scn: Scn)
    requires Clean(scn)
    ensures ReadLines(st, ScnTexts(scn)) == Reading(st.scns + [scn], true)
  {
    hide Classify, CleanReply, CleanControl, CleanText, Assignment, ReplyTexts, ControlTexts;
    BlankLine();
    ScnLine();
    NameRead(scn.name);
    var head := ["\n", "[SCN]\n", Assignment("name ", scn.name)];
    var named := Scn(scn.name, [], []);
    HeadRead(st, scn.name);
    RepliesRead(st.scns, named, scn.reply);
    var replied := Scn(scn.name, [], scn.reply);
    assert [] + scn.reply == scn.reply && [] + scn.control == scn.control;
    var gap := if scn.control != [] then ["\n"] else [];
    GapRead(Reading(st.scns + [replied], true), scn.control != []);
    ControlsRead(st.scns, replied, scn.control);
    ReadLinesAppend(st, head, ReplyTexts(scn.reply));
    ReadLinesAppend(st, head + ReplyTexts(scn.reply), gap);
    ReadLinesAppend(st, head + ReplyTexts(scn.reply) + gap, ControlTexts(scn.control));
  }

  lemma ReadThree(st: Reading, x: string, y: string, z: string)
    ensures ReadLines(st, [x, y, z]) == ReadLine(ReadLine(ReadLine(st, Classify(x)), Classify(y)), Classify(z))
  {
    hide Classify, ReadLine;
    assert [x, y, z][1..] == [y, z] && [y, z][1..] == [z] && [z][1..] == [];
    var u := ReadLine(st, Classify(x));
    var v := ReadLine(u, Classify(y));
    assert ReadLines(st, [x, y, z]) == ReadLines(u, [y, z]);
    assert ReadLines(u, [y, z]) == ReadLines(v, [z]);
    assert ReadLines(v, [z]) == ReadLines(ReadLine(v, Classify(z)), []);
  }

  lemma HeadRead(st: Reading, name: string)
    requires CleanText(name)
    ensures ReadLines(st, ["\n", "[SCN]\n", Assignment("name ", name)]) == Reading(st.scns + [Scn(name, [], [])], true)
  {
    hide Classify, CleanText, Assignment, ReadLines, Tag, Content, Terminated;
    BlankLine();
    ScnLine();
    NameRead(name);
    ReadThree(st, "\n", "[SCN]\n", Assignment("name ", name));
    var begun := st.scns + [Scn("", [], [])];
    assert SetLast(begun, Scn(name, [], [])) == st.scns + [Scn(name, [], [])];
  }

  lemma GapRead(st: Reading, gap: bool)
    ensures ReadLines(st, if gap then ["\n"] else []) == st
  {
    BlankLine();
  }

  lemma {:induction false} ScnsRead(st: Reading, scns: seq<Scn>)
    requires AllClean(scns)
    ensures ReadLines(st, ScnsTexts(scns)).scns == st.scns + scns
    decreases |scns|
  {
    hide ReadLines, Clean, ScnTexts;
    if scns == [] {
      NothingRead(st);
      assert st.scns + scns == st.scns;
    } else {
      var n := |scns| - 1;
      ScnsRead(st, scns[..n]);
      ReadLinesAppend(st, ScnsTexts(scns[..n]), ScnTexts(scns[n]));
      ScnRead(ReadLines(st, ScnsTexts(scns[..n])), scns[n]);
      assert st.scns + scns[..n] + [scns[n]] == st.scns + scns;
    }
  }

  lemma NothingRead(st: Reading)
    ensures ReadLines(st, []) == st
  {}

  // ---- The rest of the file --------------------------------------------------------------------------

  predicate Unended(line: string) {
    line != "" && NoNewline(line)
  }

  /** All lines but the last are terminated. */
  predicate EndedButLast(lines: seq<string>) {
    && (forall i :: 0 <= i < |lines| - 1 ==> Terminated(lines[i]))
    && (lines != [] ==> Terminated(lines[|lines| - 1]) || Unended(lines[|lines| - 1]))
  }

  lemma ShapedMeans(lines: seq<string>)
    ensures Shaped(lines) <==> EndedButLast(lines)
  {
    hide Terminated;
  }

  predicate AllEnded(lines: seq<string>) {
    forall i :: 0 <= i < |lines| ==> Terminated(lines[i])
  }

  predicate Untagged(lines: seq<string>) {
    forall i :: 0 <= i < |lines| ==> Tag(lines[i]) != "[SCN]" && Tag(lines[i]) != "[LIVE]"
  }

  predicate LiveLines(lines: seq<string>) {
    lines != [] ==> Tag(lines[0]) == "[LIVE]" && forall i :: 0 <= i < |lines| ==> Tag(lines[i]) != "[SCN]"
  }

  predicate KeptOk(k: Kept) {
    && Untagged(k.header) && LiveLines(k.live)
    && (k.zone == InHeader ==> k.live == []) && (k.zone == InLive ==> k.live != [])
  }

  lemma KeepLineOk(k: Kept, line: string)
    requires KeptOk(k) && AllEnded(k.header) && AllEnded(k.live)
    ensures KeptOk(KeepLine(k, line))
    ensures Terminated(line) ==> AllEnded(KeepLine(k, line).header) && AllEnded(KeepLine(k, line).live)
    ensures Unended(line) ==> EndedButLast(KeepLine(k, line).header) && EndedButLast(KeepLine(k, line).live)
    ensures KeepLine(k, line).live != [] ==> AllEnded(KeepLine(k, line).header)
  {
    hide Tag, Terminated, Unended;
  }

  lemma {:induction false} KeepLinesOk(k: Kept, lines: seq<string>)
    requires KeptOk(k) && AllEnded(k.header) && AllEnded(k.live) && EndedButLast(lines)
    ensures var r := KeepLines(k, lines);
            && KeptOk(r) && EndedButLast(r.header) && EndedButLast(r.live) && (r.live != [] ==> AllEnded(r.header))
    decreases |lines|
  {
    hide Tag, KeptOk, KeepLine, Terminated, Unended;
    if lines != [] {
      KeepLineOk(k, lines[0]);
      if |lines| > 1 {
        KeepLinesOk(KeepLine(k, lines[0]), lines[1..]);
      } else {
        assert lines[1..] == [];
      }
    }
  }

  lemma SectionsOk(text: string)
    ensures var k := Sections(text);
            && KeptOk(k) && EndedButLast(k.header) && EndedButLast(k.live) && (k.live != [] ==> AllEnded(k.header))
  {
    hide SplitLines, Tag, Shaped;
    SplitShape(text);
    ShapedMeans(SplitLines(text));
    KeepLinesOk(Kept(InHeader, [], []), SplitLines(text));
  }

  lemma {:induction false} JoinAppend(a: seq<string>, b: seq<string>)
    ensures Join(a + b) == Join(a) + Join(b)
  {
    if a == [] {
      assert a + b == b;
    } else {
      assert (a + b)[1..] == a[1..] + b;
      JoinAppend(a[1..], b);
    }
  }

  /** Lines that neither begin nor end a section. */
  predicate PlainLines(lines: seq<string>) {
    AllEnded(lines) && Untagged(lines)
  }

  lemma ReplyTextsPlain(rs: seq<ReplyLine>)
    requires forall i :: 0 <= i < |rs| ==> CleanReply(rs[i])
    ensures PlainLines(ReplyTexts(rs))
  {
    hide Tag, Terminated, Assignment, CleanReply;
    forall i | 0 <= i < |rs|
      ensures var l := ReplyTexts(rs)[i]; Terminated(l) && Tag(l) != "[SCN]" && Tag(l) != "[LIVE]"
    {
      ReplyRead(rs[i]);
    }
  }

  lemma ControlTextsPlain(cs: seq<ControlLine>)
    requires forall i :: 0 <= i < |cs| ==> CleanControl(cs[i])
    ensures PlainLines(ControlTexts(cs))
  {
    hide Tag, Terminated, Assignment, CleanControl;
    forall i | 0 <= i < |cs|
      ensures var l := ControlTexts(cs)[i]; Terminated(l) && Tag(l) != "[SCN]" && Tag(l) != "[LIVE]"
    {
      ControlRead(cs[i]);
    }
  }

  lemma PlainAppend(a: seq<string>, b: seq<string>)
    requires PlainLines(a) && PlainLines(b)
    ensures PlainLines(a + b)
  {
    hide Tag, Terminated;
  }

  /** An SCN's lines after its section header. */
  function ScnBody(scn: Scn): seq<string> {
    [Assignment("name ", scn.name)] + ReplyTexts(scn.reply) + (if scn.control != [] then ["\n"] else [])
        + ControlTexts(scn.control)
  }

  lemma ScnBodyPlain(scn: Scn)
    requires Clean(scn)
    ensures PlainLines(ScnBody(scn))
  {
    hide Assignment, CleanReply, CleanControl, CleanText, ReplyTexts, ControlTexts, PlainLines;
    var name, gap := [Assignment("name ", scn.name)], if scn.control != [] then ["\n"] else [];
    NamePlain(scn.name);
    GapPlain(scn.control != []);
    ReplyTextsPlain(scn.reply);
    ControlTextsPlain(scn.control);
    PlainAppend(name, ReplyTexts(scn.reply));
    PlainAppend(name + ReplyTexts(scn.reply), gap);
    PlainAppend(name + ReplyTexts(scn.reply) + gap, ControlTexts(scn.control));
  }

  lemma NamePlain(name: string)
    requires CleanText(name)
    ensures PlainLines([Assignment("name ", name)])
  {
    hide Tag, Terminated, Assignment, CleanText;
    NameRead(name);
  }

  lemma GapPlain(gap: bool)
    ensures PlainLines(if gap then ["\n"] else [])
  {
    hide Tag, Terminated;
    BlankLine();
  }

  lemma ScnTextsParts(scn: Scn)
    ensures ScnTexts(scn) == ["\n", "[SCN]\n"] + ScnBody(scn)
  {
    hide Assignment, ReplyTexts, ControlTexts;
    assert ["\n", "[SCN]\n", Assignment("name ", scn.name)] == ["\n", "[SCN]\n"] + [Assignment("name ", scn.name)];
  }

  lemma ScnTextsEnded(scn: Scn)
    requires Clean(scn)
    ensures AllEnded(ScnTexts(scn))
  {
    hide Tag, Terminated, ScnBody, Clean, ScnTexts;
    ScnTextsParts(scn);
    ScnBodyPlain(scn);
    BlankLine();
    ScnLine();
    forall i | 0 <= i < |ScnTexts(scn)| ensures Terminated(ScnTexts(scn)[i]) {
      assert ScnTexts(scn)[i] == if i == 0 then "\n" else if i == 1 then "[SCN]\n" else ScnBody(scn)[i - 2];
    }
  }

  /** The lines of the SCNs, and the two blank lines after them. */
  function Tail(scns: seq<Scn>): seq<string> {
    ScnsTexts(scns) + ["\n", "\n"]
  }

  lemma {:induction false} ScnsTextsEnded(scns: seq<Scn>)
    requires AllClean(scns)
    ensures AllEnded(ScnsTexts(scns))
    ensures if scns == [] then ScnsTexts(scns) == [] else ScnsTexts(scns) != [] && ScnsTexts(scns)[0] == "\n"
  {
    hide Tag, Terminated, ScnTexts, Clean;
    if scns != [] {
      var n := |scns| - 1;
      ScnsTextsEnded(scns[..n]);
      ScnTextsEnded(scns[n]);
      BeginsBlank(scns[n]);
    }
  }

  lemma BeginsBlank(scn: Scn)
    ensures ScnTexts(scn) != [] && ScnTexts(scn)[0] == "\n"
  {}

  lemma {:induction false} SplitWhole(lines: seq<string>)
    requires EndedButLast(lines)
    ensures SplitLines(Join(lines)) == lines
  {
    hide SplitLines, Terminated;
    if lines == [] {
      NoText();
    } else if |lines| == 1 {
      assert Join(lines) == lines[0] + "" == lines[0];
      if Terminated(lines[0]) {
        SplitTerminated(lines[0], "");
        assert [lines[0]] + [] == lines;
        NoText();
      } else {
        SplitUnended(lines[0]);
      }
    } else {
      SplitTerminated(lines[0], Join(lines[1..]));
      SplitWhole(lines[1..]);
      assert lines == [lines[0]] + lines[1..];
    }
  }

  lemma NoText()
    ensures SplitLines("") == []
  {}

  /** A last header line without an end takes the end of the blank line that follows it. */
  function Ended(header: seq<string>): seq<string> {
    if header != [] && !Terminated(header[|header| - 1])
    then header[..|header| - 1] + [header[|header| - 1] + "\n"]
    else header + ["\n"]
  }

  /** The lines of a written file. */
  lemma WrittenLines(file: string, scns: seq<Scn>)
    requires AllClean(scns)
    ensures SplitLines(Written(file, scns)) == Ended(Sections(file).header) + Tail(scns)[1..] + Sections(file).live
  {
    hide SplitLines, Sections, Terminated, ScnsTexts, KeptOk, AllClean, Join, Unended;
    SectionsOk(file);
    var k := Sections(file);
    var tail := Tail(scns);
    BlankLine();
    ScnsTextsEnded(scns);
    assert tail[0] == "\n";
    var lines := Ended(k.header) + tail[1..] + k.live;
    if k.header != [] && !Terminated(k.header[|k.header| - 1]) {
      AddEnd(k.header[|k.header| - 1]);
    }
    assert EndedButLast(lines);
    SplitWhole(lines);
    WrittenJoin(file, scns);
  }

  lemma AddEnd(line: string)
    requires Unended(line)
    ensures Terminated(line + "\n")
  {
    assert (line + "\n")[..|line|] == line;
  }

  lemma JoinTwo(a: string, b: string)
    ensures Join([a, b]) == a + b
    ensures Join([a]) == a
  {
    assert [a, b][1..] == [b] && [b][1..] == [] && [a][1..] == [];
    assert Join([b]) == b + "" == b && Join([a]) == a + "" == a;
  }

  lemma WrittenJoin(file: string, scns: seq<Scn>)
    requires AllClean(scns)
    ensures Written(file, scns) == Join(Ended(Sections(file).header) + Tail(scns)[1..] + Sections(file).live)
  {
    hide SplitLines, Sections, Terminated, ScnsTexts, AllClean, Join;
    var k := Sections(file);
    var tail := Tail(scns);
    ScnsTextsEnded(scns);
    assert tail == ["\n"] + tail[1..];
    JoinAppend(["\n"], tail[1..]);
    JoinTwo("\n", "\n");
    JoinTwo("\n\n", "");
    JoinAppend(ScnsTexts(scns), ["\n", "\n"]);
    JoinAppend(ScnsTexts(scns), ["\n\n"]);
    assert Join(ScnsTexts(scns) + ["\n\n"]) == "\n" + Join(tail[1..]);
    var h := k.header;
    EndedJoin(h);
    JoinAppend(Ended(h), tail[1..]);
    JoinAppend(Ended(h) + tail[1..], k.live);
    assert h + ScnsTexts(scns) + ["\n\n"] == h + (ScnsTexts(scns) + ["\n\n"]);
    JoinAppend(h, ScnsTexts(scns) + ["\n\n"]);
    JoinAppend(h + ScnsTexts(scns) + ["\n\n"], k.live);
    assert Join(h) + ("\n" + Join(tail[1..])) == Join(h) + "\n" + Join(tail[1..]);
  }

  lemma EndedJoin(h: seq<string>)
    ensures Join(Ended(h)) == Join(h) + "\n"
  {
    hide Join, Terminated;
    if h != [] && !Terminated(h[|h| - 1]) {
      var n := |h| - 1;
      JoinAppend(h[..n], [h[n] + "\n"]);
      JoinAppend(h[..n], [h[n]]);
      assert h[..n] + [h[n]] == h;
      JoinTwo(h[n], "");
      JoinTwo(h[n] + "\n", "");
      assert Join(h[..n]) + (h[n] + "\n") == Join(h[..n]) + h[n] + "\n";
    } else {
      JoinAppend(h, ["\n"]);
      JoinTwo("\n", "");
    }
  }

  // ---- The round trip --------------------------------------------------------------------------------

  lemma UpperBracket(s: string)
    requires s != ""
    ensures Upper(s) != "" && (Upper(s)[0] == '[' <==> s[0] == '[')
  {}

  lemma TagMeaning(raw: string)
    ensures Tag(raw) == "[SCN]" <==> Classify(raw) == OpensScn
    ensures Tag(raw) == "[LIVE]" ==> Classify(raw) == Closes
  {
    hide Content, ClassifyKey;
    var line := Content(raw);
    if line != "" {
      UpperBracket(line);
      hide Upper;
      var i := IndexOf(line, '=');
      if i < |line| {
        KeyIsNoHeader(Strip(line[..i]), Strip(line[i + 1..]));
      }
    } else {
      assert Upper(line) == "";
    }
  }

  lemma KeyIsNoHeader(key: string, v: string)
    ensures var c := ClassifyKey(key, v); c.Skip? || c.Names? || c.Controls? || c.Replies?
  {}

  lemma {:induction false} ClosedStays(scns: seq<Scn>, lines: seq<string>)
    requires forall i :: 0 <= i < |lines| ==> Tag(lines[i]) != "[SCN]"
    ensures ReadLines(Reading(scns, false), lines) == Reading(scns, false)
    decreases |lines|
  {
    hide Classify, Tag;
    if lines != [] {
      TagMeaning(lines[0]);
      ClosedStays(scns, lines[1..]);
    }
  }

  lemma LiveReads(st: Reading, live: seq<string>)
    requires LiveLines(live)
    ensures ReadLines(st, live).scns == st.scns
  {
    hide Classify, Tag;
    if live != [] {
      TagMeaning(live[0]);
      ClosedStays(st.scns, live[1..]);
    }
  }

  /** The end of a line does not count. */
  lemma ContentWithEnd(line: string)
    ensures Content(line + "\n") == Content(line)
  {
    hide StripLeft, StripRight;
    var i := IndexOf(line, '#');
    if i < |line| {
      assert (line + "\n")[..i] == line[..i];
      IndexIs(line + "\n", '#', i);
    } else {
      assert line[..i] == line;
      NoComment(line + "\n");
      var pre, post := StripParts(line);
      assert line + "\n" == pre + Strip(line) + (post + "\n");
      StripOf(pre, Strip(line), post + "\n");
    }
  }

  lemma EndedUntagged(header: seq<string>)
    requires Untagged(header)
    ensures Untagged(Ended(header))
  {
    hide Content, Upper, Terminated;
    BlankLine();
    if header != [] {
      ContentWithEnd(header[|header| - 1]);
    }
  }

  lemma TailReads(st: Reading, scns: seq<Scn>)
    requires AllClean(scns)
    ensures ReadLines(st, Tail(scns)[1..]).scns == st.scns + scns
  {
    hide Classify, ScnsTexts, AllClean, Tag;
    ScnsTextsEnded(scns);
    BlankLine();
    var tail := Tail(scns);
    assert tail[0] == "\n";
    assert ReadLines(st, tail) == ReadLines(st, tail[1..]);
    ReadLinesAppend(st, ScnsTexts(scns), ["\n", "\n"]);
    ScnsRead(st, scns);
    var u := ReadLines(st, ScnsTexts(scns));
    assert ["\n", "\n"][1..] == ["\n"] && ["\n"][1..] == [];
  }

  lemma RoundTrip(file: string, scns: seq<Scn>)
    requires AllClean(scns)
    ensures Parse(Written(file, scns)) == scns
  {
    hide SplitLines, ReadLines, Sections, ScnsTexts, AllClean, Tag, Ended, Written, EndedButLast, AllEnded;
    var k := Sections(file);
    SectionsOk(file);
    WrittenLines(file, scns);
    EndedUntagged(k.header);
    ClosedStays([], Ended(k.header));
    var start := Reading([], false);
    ReadLinesAppend(start, Ended(k.header), Tail(scns)[1..]);
    ReadLinesAppend(start, Ended(k.header) + Tail(scns)[1..], k.live);
    TailReads(start, scns);
    LiveReads(ReadLines(start, Tail(scns)[1..]), k.live);
    assert [] + scns == scns;
  }

  // ---- Whatever is read is clean -----------------------------------------------------------------------

  lemma StripClean(s: string)
    requires NoNewline(s) && '#' !in s
    ensures CleanText(Strip(s))
  {
    hide StripLeft, StripRight;
    var pre, post := StripParts(s);
    assert forall c :: c in Strip(s) ==> c in s;
  }

  lemma ContentClean(raw: string)
    requires Terminated(raw) || Unended(raw)
    ensures CleanText(Content(raw))
  {
    hide StripLeft, StripRight, Strip;
    var cut := CutComment(raw);
    var pre, post := StripParts(cut);
    var c := Content(raw);
    forall i | 0 <= i < |c| ensures !IsNewline(c[i]) && c[i] != '#' {
      assert cut[|pre| + i] == c[i] == raw[|pre| + i];
      assert c[i] in cut;
      if |pre| + i < |raw| - 1 {
        assert Terminated(raw) ==> c[i] == raw[..|raw| - 1][|pre| + i];
      } else {
        assert i == |c| - 1;
      }
    }
  }

  predicate CleanLine(line: Line) {
    match line
    case Names(name) => CleanText(name)
    case Controls(c) => CleanControl(c)
    case Replies(r) => CleanReply(r)
    case _ => true
  }

  lemma FieldClean(s: string)
    ensures var m := MatchField(s); m.Some? ==> CleanField(m.value.0) && CleanBit(m.value.1)
  {
    var n := AlnumRun(s);
    assert s[..|s|] == s;
  }

  lemma KeyClean(key: string, v: string)
    requires CleanText(v)
    ensures CleanLine(ClassifyKey(key, v))
  {
    hide MatchField, CleanText, CleanField, CleanBit, Strip;
    var k := if key != "" && key[|key| - 1] == '!' then Strip(key[..|key| - 1]) else key;
    if CONTROL <= k {
      FieldClean(k[|CONTROL|..]);
    } else if REPLY <= k {
      FieldClean(k[|REPLY|..]);
    }
  }

  lemma LineClean(raw: string)
    requires Terminated(raw) || Unended(raw)
    ensures CleanLine(Classify(raw))
  {
    hide Content, Strip, ClassifyKey, Upper;
    ContentClean(raw);
    var line := Content(raw);
    var i := IndexOf(line, '=');
    if line != "" && i < |line| {
      assert forall c :: c in line[i + 1..] ==> c in line;
      StripClean(line[i + 1..]);
      KeyClean(Strip(line[..i]), Strip(line[i + 1..]));
    }
  }

  lemma ReadLineClean(st: Reading, line: Line)
    requires AllClean(st.scns) && CleanLine(line)
    ensures AllClean(ReadLine(st, line).scns)
  {
    hide CleanText, CleanControl, CleanReply;
    BlankIsClean();
  }

  lemma BlankIsClean()
    ensures CleanText("")
  {}

  lemma {:induction false} ReadLinesClean(st: Reading, lines: seq<string>)
    requires AllClean(st.scns) && forall i :: 0 <= i < |lines| ==> Terminated(lines[i]) || Unended(lines[i])
    ensures AllClean(ReadLines(st, lines).scns)
    decreases |lines|
  {
    hide Classify, AllClean, Terminated, Unended, CleanLine, ReadLine;
    if lines != [] {
      LineClean(lines[0]);
      ReadLineClean(st, Classify(lines[0]));
      ReadLinesClean(ReadLine(st, Classify(lines[0])), lines[1..]);
    }
  }

  lemma ParsedIsClean(text: string)
    ensures AllClean(Parse(text))
  {
    hide SplitLines, Clean, Terminated, Unended, ReadLines;
    SplitShape(text);
    EndsOfLines(text);
    ReadLinesClean(Reading([], false), SplitLines(text));
  }

  lemma EndsOfLines(text: string)
    ensures forall i :: 0 <= i < |SplitLines(text)| ==> Terminated(SplitLines(text)[i]) || Unended(SplitLines(text)[i])
  {
    hide SplitLines, Terminated, Unended, Shaped;
    SplitShape(text);
    ShapedMeans(SplitLines(text));
  }

  /** Whatever the file held before, the mappings written are the mappings read exactly if they are all clean. */
  lemma RoundTripIff(file: string, scns: seq<Scn>)
    ensures Parse(Written(file, scns)) == scns <==> AllClean(scns)
  {
    hide Parse, Written, Clean;
    if AllClean(scns) {
      RoundTrip(file, scns);
    }
    ParsedIsClean(Written(file, scns));
  }

  // ---- What a save does to the rest of the file --------------------------------------------------------

  lemma {:induction false} KeepAppend(k: Kept, a: seq<string>, b: seq<string>)
    ensures KeepLines(k, a + b) == KeepLines(KeepLines(k, a), b)
    decreases |a|
  {
    hide KeepLine;
    if a == [] {
      assert a + b == b;
    } else {
      assert (a + b)[1..] == a[1..] + b;
      KeepAppend(KeepLine(k, a[0]), a[1..], b);
    }
  }

  /** Lines that are no section header stay in the zone they are in. */
  lemma {:induction false} KeepUntagged(k: Kept, lines: seq<string>)
    requires Untagged(lines)
    ensures KeepLines(k, lines) == match k.zone
              case InHeader => k.(header := k.header + lines)
              case InLive => k.(live := k.live + lines)
              case InScn => k
    decreases |lines|
  {
    hide Tag;
    if lines != [] {
      KeepUntagged(KeepLine(k, lines[0]), lines[1..]);
      assert [lines[0]] + lines[1..] == lines;
      assert k.header + [lines[0]] + lines[1..] == k.header + lines;
      assert k.live + [lines[0]] + lines[1..] == k.live + lines;
    } else {
      assert k.header + lines == k.header && k.live + lines == k.live;
    }
  }

  lemma {:induction false} KeepLive(k: Kept, lines: seq<string>)
    requires k.zone == InLive && forall i :: 0 <= i < |lines| ==> Tag(lines[i]) != "[SCN]"
    ensures KeepLines(k, lines) == k.(live := k.live + lines)
    decreases |lines|
  {
    hide Tag;
    if lines != [] {
      KeepLive(KeepLine(k, lines[0]), lines[1..]);
      assert k.live + [lines[0]] + lines[1..] == k.live + lines;
    } else {
      assert k.live + lines == k.live;
    }
  }

  lemma KeepScn(k: Kept, scn: Scn)
    requires Clean(scn)
    ensures KeepLines(k, ScnTexts(scn)[1..]) == k.(zone := InScn)
    ensures k.zone == InScn ==> KeepLines(k, ScnTexts(scn)) == k
  {
    hide Tag, ScnTexts, ScnBody, Clean, Terminated;
    ScnTextsParts(scn);
    ScnBodyPlain(scn);
    BlankLine();
    ScnLine();
    var rest := ScnTexts(scn)[1..];
    assert rest[0] == "[SCN]\n" && rest[1..] == ScnBody(scn);
    KeepUntagged(k.(zone := InScn), ScnBody(scn));
  }

  lemma {:induction false} KeepScns(k: Kept, scns: seq<Scn>)
    requires AllClean(scns) && scns != []
    ensures KeepLines(k, ScnsTexts(scns)[1..]) == k.(zone := InScn)
  {
    hide KeepLines, ScnTexts, Clean;
    var n := |scns| - 1;
    BeginsBlank(scns[n]);
    if n == 0 {
      assert ScnsTexts(scns) == [] + ScnTexts(scns[0]) == ScnTexts(scns[0]);
      KeepScn(k, scns[0]);
    } else {
      KeepScns(k, scns[..n]);
      KeepScn(k.(zone := InScn), scns[n]);
      ScnsTextsEnded(scns[..n]);
      assert ScnsTexts(scns)[1..] == ScnsTexts(scns[..n])[1..] + ScnTexts(scns[n]);
      KeepAppend(k, ScnsTexts(scns[..n])[1..], ScnTexts(scns[n]));
    }
  }

  lemma KeepTail(k: Kept, scns: seq<Scn>)
    requires AllClean(scns) && k.zone == InHeader
    ensures KeepLines(k, Tail(scns)[1..]) == if scns == [] then k.(header := k.header + ["\n"]) else k.(zone := InScn)
  {
    hide Tag, KeepLines, ScnsTexts, Clean, Terminated;
    BlankLine();
    ScnsTextsEnded(scns);
    if scns == [] {
      assert Tail(scns)[1..] == ["\n"];
      KeepUntagged(k, ["\n"]);
    } else {
      KeepScns(k, scns);
      assert Tail(scns)[1..] == ScnsTexts(scns)[1..] + ["\n", "\n"];
      KeepAppend(k, ScnsTexts(scns)[1..], ["\n", "\n"]);
      KeepUntagged(k.(zone := InScn), ["\n", "\n"]);
    }
  }

  /** A save keeps the LIVE sections to the letter, and the header but for blank lines at its end. */
  lemma RestSurvives(file: string, scns: seq<Scn>)
    requires AllClean(scns)
    ensures var before, after := Sections(file), Sections(Written(file, scns));
            && after.live == before.live
            && after.header == Ended(before.header) + (if scns == [] then ["\n"] else [])
  {
    hide SplitLines, KeepLines, ScnsTexts, AllClean, Tag, Ended, Written, EndedButLast, AllEnded;
    var k := Sections(file);
    SectionsOk(file);
    WrittenLines(file, scns);
    EndedUntagged(k.header);
    var start := Kept(InHeader, [], []);
    var h := Ended(k.header);
    KeepUntagged(start, h);
    assert [] + h == h;
    KeepTail(start.(header := h), scns);
    KeepAppend(start, h, Tail(scns)[1..]);
    KeepAppend(start, h + Tail(scns)[1..], k.live);
    KeptLive(KeepLines(start, h + Tail(scns)[1..]), k.live);
  }

  lemma KeptLive(k: Kept, live: seq<string>)
    requires LiveLines(live) && k.live == []
    ensures KeepLines(k, live).live == live && KeepLines(k, live).header == k.header
  {
    hide Tag;
    if live != [] {
      KeepLive(KeepLine(k, live[0]), live[1..]);
      assert [live[0]] + live[1..] == live;
    }
  }

  function Saves(text: string, edits: seq<seq<Scn>>): string {
    if edits == [] then text else Written(Saves(text, edits[..|edits| - 1]), edits[|edits| - 1])
  }

  /** However often the mappings are edited, the LIVE sections stay; but every save adds a blank line to the header. */
  lemma {:induction false} SavesGrow(text: string, edits: seq<seq<Scn>>)
    requires forall i :: 0 <= i < |edits| ==> AllClean(edits[i]) && edits[i] != []
    requires AllEnded(Sections(text).header)
    ensures Sections(Saves(text, edits)).live == Sections(text).live
    ensures Sections(Saves(text, edits)).header == Sections(text).header + seq(|edits|, i => "\n")
  {
    hide Sections, Written, AllClean, Terminated;
    var h := Sections(text).header;
    if edits == [] {
      assert h + seq(0, i => "\n") == h;
    } else {
      var n := |edits| - 1;
      SavesGrow(text, edits[..n]);
      RestSurvives(Saves(text, edits[..n]), edits[n]);
      BlankLine();
      assert seq(n, i => "\n") + ["\n"] == seq(|edits|, i => "\n");
      assert h + seq(n, i => "\n") + ["\n"] == h + seq(|edits|, i => "\n");
    }
  }
}
