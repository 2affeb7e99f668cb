/** The parser of the common part of a Bitcoin Core log line: a timestamp, bracketed metadata
    items and the message. The regular expressions of the parser are written out here as the
    greedy, backtracking scanners that they denote. */
module LogMetadata {
  import opened Basics
  import opened Strings
  import opened Decimal

  // ---------- The line ----------

  /** White space, as `\s` has it. */
  predicate IsSpace(c: char) {
    var n := c as int;
    9 <= n <= 13 || n == 32 || n == 0x85 || n == 0xA0 || n == 0x1680 || 0x2000 <= n <= 0x200A ||
    n == 0x2028 || n == 0x2029 || n == 0x202F || n == 0x205F || n == 0x3000
  }

  /** Tabs, line breaks, spaces, and the spaces and separators of Unicode. */
  lemma SpaceIff(c: char)
    ensures IsSpace(c) <==> c in "\t\n\U{0b}\U{0c}\r \U{85}\U{a0}\U{1680}\U{2028}\U{2029}\U{202f}\U{205f}\U{3000}"
                            || '\U{2000}' <= c <= '\U{200a}'
  {
    var spaces := "\t\n\U{0b}\U{0c}\r \U{85}\U{a0}\U{1680}\U{2028}\U{2029}\U{202f}\U{205f}\U{3000}";
    assert forall i :: 0 <= i < |spaces| ==> IsSpace(spaces[i]);
    assert spaces[0] == '\t' && spaces[1] == '\n' && spaces[2] as int == 11 && spaces[3] as int == 12;
    assert spaces[4] == '\r' && spaces[5] == ' ' && spaces[6] as int == 0x85 && spaces[7] as int == 0xA0;
    assert spaces[8] as int == 0x1680 && spaces[9] as int == 0x2028 && spaces[10] as int == 0x2029;
    assert spaces[11] as int == 0x202F && spaces[12] as int == 0x205F && spaces[13] as int == 0x3000;
    if IsSpace(c) && !('\U{2000}' <= c <= '\U{200a}') {
      assert exists i :: 0 <= i < |spaces| && spaces[i] as int == c as int;
    }
  }

  /** Whether `s` starts as `pattern` says, where a `d` stands for any digit. */
  predicate StartsLike(s: string, pattern: string) {
    |pattern| <= |s| &&
    forall i :: 0 <= i < |pattern| ==> if pattern[i] == 'd' then IsDigit(s[i]) else s[i] == pattern[i]
  }

  function DigitRun(s: string): (n: nat)
    ensures n <= |s|
  {
    if s == [] || !IsDigit(s[0]) then 0 else 1 + DigitRun(s[1..])
  }

  /** The length of the timestamp that the line starts with: a date, a time, up to six digits of
      a second, and `Z`. */
  function TimestampLength(line: string): (n: Option<nat>)
    ensures n.Some? ==> n.value <= |line|
  {
    if !StartsLike(line, "dddd-dd-ddTdd:dd:dd") then None
    else
      var fraction := if StartsLike(line[19..], ".d") then 1 + DigitRun(line[20..]) else 0;
      if fraction <= 7 && StartsLike(line[19 + fraction..], "Z") then Some(20 + fraction) else None
  }

  function SpaceRun(s: string): (n: nat)
    ensures n <= |s|
  {
    if s == [] || !IsSpace(s[0]) then 0 else 1 + SpaceRun(s[1..])
  }

  /** A bracketed item at the start, and what follows its closing bracket. */
  function ItemAt(s: string): (r: Option<(string, string)>)
    ensures r.Some? ==> |r.value.1| < |s|
  {
    if s == [] || s[0] != '[' then None
    else
      var r := SplitOnce(s[1..], ']');
      if r.Some? && r.value.0 != [] then SplitLength(s[1..], ']'); r else None
  }

  /** Exactly what an item is: brackets around at least one character, none of them closing. */
  lemma ItemIff(s: string, item: string, after: string)
    ensures ItemAt(s) == Some((item, after)) <==> s == "[" + item + "]" + after && item != [] && ']' !in item
  {
    if s != [] {
      SplitIff(s[1..], ']', item, after);
      assert s == [s[0]] + s[1..];
      assert ("[" + item + "]" + after)[1..] == item + [']'] + after;
    }
  }

  lemma {:induction false} SplitLength(s: string, c: char)
    requires SplitOnce(s, c).Some?
    ensures s == SplitOnce(s, c).value.0 + [c] + SplitOnce(s, c).value.1
  {
    if s[0] != c {
      SplitLength(s[1..], c);
    }
  }

  /** The metadata part and the message part of a line behind its timestamp. */
  datatype Scanned = Scanned(metadata: string, message: string)

  /** A message is not empty and stays on its line. */
  function Message(s: string): Option<Scanned> {
    if s != [] && '\n' !in s then Some(Scanned("", s)) else None
  }

  /** Takes as many items as it can, each with the white space behind it, and gives items or
      spaces back only where there would be no message otherwise. */
  function Scan(s: string): Option<Scanned>
    decreases |s|, 0
  {
    match ItemAt(s)
    case None => Message(s)
    case Some((item, after)) =>
      match ScanSpaces(after, SpaceRun(after))
      case None => Message(s)
      case Some(r) => Some(r.(metadata := s[..|s| - |after|] + r.metadata))
  }

  /** The same behind `k` or fewer, but not no, spaces. */
  function ScanSpaces(s: string, k: nat): Option<Scanned>
    requires k <= |s|
    decreases |s|, k
  {
    if k == 0 then None
    else match Scan(s[k..])
      case None => ScanSpaces(s, k - 1)
      case Some(r) => Some(r.(metadata := s[..k] + r.metadata))
  }

  /** Metadata and message make up the text, the message is not empty and stays on its line, and
      there is no more metadata to be found in it. */
  ghost predicate SplitsInto(s: string, r: Scanned) {
    && s == r.metadata + r.message && r.message != [] && '\n' !in r.message
    && Scan(r.message) == Some(Scanned("", r.message))
  }

  lemma SplitsBehind(front: string, s: string, r: Scanned)
    requires SplitsInto(s, r)
    ensures SplitsInto(front + s, r.(metadata := front + r.metadata))
  {
    assert front + r.metadata + r.message == front + (r.metadata + r.message);
  }

  /** The scanner loses nothing and leaves no metadata in the message. */
  lemma {:induction false} ScanIsExact(s: string)
    requires Scan(s).Some?
    ensures SplitsInto(s, Scan(s).value)
    decreases |s|, 0
  {
    hide SplitsInto;
    if ItemAt(s).Some? && ScanSpaces(ItemAt(s).value.1, SpaceRun(ItemAt(s).value.1)).Some? {
      var after := ItemAt(s).value.1;
      var front := s[..|s| - |after|];
      ScanSpacesIsExact(after, SpaceRun(after));
      ItemIsPrefix(s);
      assert s == front + after;
      SplitsBehind(front, after, ScanSpaces(after, SpaceRun(after)).value);
    } else {
      MessageIsExact(s);
    }
  }

  lemma MessageIsExact(s: string)
    requires Scan(s) == Message(s) && Message(s).Some?
    ensures SplitsInto(s, Message(s).value)
  {
    assert "" + s == s;
  }

  lemma {:induction false} ScanSpacesIsExact(s: string, k: nat)
    requires k <= |s| && ScanSpaces(s, k).Some?
    ensures SplitsInto(s, ScanSpaces(s, k).value)
    decreases |s|, k
  {
    hide SplitsInto, Scan;
    if Scan(s[k..]).Some? {
      ScanIsExact(s[k..]);
      assert s == s[..k] + s[k..];
      SplitsBehind(s[..k], s[k..], Scan(s[k..]).value);
    } else {
      ScanSpacesIsExact(s, k - 1);
    }
  }

  lemma ItemIsPrefix(s: string)
    requires ItemAt(s).Some?
    ensures var after := ItemAt(s).value.1; |after| <= |s| && s[|s| - |after|..] == after
  {
    SplitLength(s[1..], ']');
  }

  /** All items in a metadata part, found one after the other from the left. */
  function FindItems(s: string): seq<string>
    decreases |s|
  {
    if s == [] then []
    else match ItemAt(s)
      case None => FindItems(s[1..])
      case Some((item, after)) => [item] + FindItems(after)
  }

  // ---------- Categories and levels ----------

  datatype Level = Info | Warning | Error | Debug | Trace

  const CATEGORIES_TO_6 := ["UNKNOWN", "ADDRMAN", "BENCH", "BLOCKSTORAGE", "CMPCTBLOCK", "COINDB", "ESTIMATEFEE"]
  const CATEGORIES_TO_13 := ["HTTP", "I2P", "IPC", "LEVELDB", "LIBEVENT", "MEMPOOL", "MEMPOOLREJ"]
  const CATEGORIES_TO_20 := ["NET", "PROXY", "PRUNE", "QT", "RAND", "REINDEX", "RPC"]
  const CATEGORIES_TO_28 := ["SCAN", "SELECTCOINS", "TOR", "TXPACKAGES", "TXRECONCILIATION", "VALIDATION",
                             "WALLETDB", "ZMQ"]

  /** The categories by their number; number 0 is the unknown one. */
  const CATEGORIES: seq<string> := CATEGORIES_TO_6 + CATEGORIES_TO_13 + CATEGORIES_TO_20 + CATEGORIES_TO_28

  const UNKNOWN: nat := 0

  function Upper(c: char): char {
    if 'a' <= c <= 'z' then 'A' + (c - 'a') else c
  }

  function Lower(c: char): char {
    if 'A' <= c <= 'Z' then 'a' + (c - 'A') else c
  }

  function ToUpper(s: string): (r: string)
    ensures |r| == |s| && forall i :: 0 <= i < |s| ==> r[i] == Upper(s[i])
  {
    seq(|s|, i requires 0 <= i < |s| => Upper(s[i]))
  }

  function ToLower(s: string): (r: string)
    ensures |r| == |s| && forall i :: 0 <= i < |s| ==> r[i] == Lower(s[i])
  {
    seq(|s|, i requires 0 <= i < |s| => Lower(s[i]))
  }

  /** The number of the category with this name. */
  function IndexIn(names: seq<string>, name: string): Option<nat> {
    if names == [] then None
    else if names[|names| - 1] == name then Some(|names| - 1)
    else IndexIn(names[..|names| - 1], name)
  }

  predicate IsTrace(item: string) {
    |item| >= 6 && item[|item| - 6..] == ":trace"
  }

  function ParseCategory(item: string): Option<nat> {
    var base := if IsTrace(item) then item[..|item| - 6] else item;
    IndexIn(CATEGORIES, ToUpper(base))
  }

  function StandaloneLevel(item: string): Option<Level> {
    if ToLower(item) == "error" then Some(Error)
    else if ToLower(item) == "warning" then Some(Warning)
    else None
  }

  // ---------- What the items mean ----------

  function FirstLevel(items: seq<string>): Option<Level> {
    if items == [] then None
    else if StandaloneLevel(items[0]).Some? then StandaloneLevel(items[0])
    else FirstLevel(items[1..])
  }

  function WithoutLevels(items: seq<string>): seq<string> {
    if items == [] then []
    else WithoutLevels(items[..|items| - 1]) +
         if StandaloneLevel(items[|items| - 1]).Some? then [] else [items[|items| - 1]]
  }

  datatype Meta = Meta(category: nat, threadname: string, level: Level)

  function Interpret(items: seq<string>): Meta {
    var rest := WithoutLevels(items);
    var parsed := if rest == [] then None else ParseCategory(rest[|rest| - 1]);
    var names := if parsed.Some? then rest[..|rest| - 1] else rest;
    var category := if parsed.Some? then parsed.value else UNKNOWN;
    var level :=
      if FirstLevel(items).Some? then FirstLevel(items).value
      else if parsed.Some? && IsTrace(rest[|rest| - 1]) then Trace
      else if category == UNKNOWN then Info
      else Debug;
    Meta(category, if names == [] then "" else names[0], level)
  }

  datatype CommonLogData = CommonLogData(timestamp: nat, meta: Meta, message: string)

  const NO_DATA := CommonLogData(0, Meta(UNKNOWN, "", Info), "")

  /** What a line is parsed to; `micros` reads a timestamp. */
  function Parse(line: string, micros: string -> nat): CommonLogData {
    match TimestampLength(line)
    case None => NO_DATA
    case Some(n) =>
      var rest := line[n..];
      match ScanSpaces(rest, SpaceRun(rest))
      case None => NO_DATA
      case Some(r) => CommonLogData(micros(line[..n]), Interpret(FindItems(r.metadata)), r.message)
  }

  /** What came out of a line that matched: its timestamp, the meaning of the items between that
      and the message, and the message, which is the rest of the line and has no metadata left. */
  ghost predicate Explains(line: string, micros: string -> nat, data: CommonLogData) {
    && TimestampLength(line).Some? && TimestampLength(line).value + |data.message| <= |line|
    && ExplainsBehind(line, TimestampLength(line).value, micros, data)
  }

  ghost predicate ExplainsBehind(line: string, n: nat, micros: string -> nat, data: CommonLogData)
    requires n + |data.message| <= |line|
  {
    var metadata := line[n..|line| - |data.message|];
    && SplitsInto(line[n..], Scanned(metadata, data.message))
    && data.timestamp == micros(line[..n]) && data.meta == Interpret(FindItems(metadata))
  }

  lemma ParseExplains(line: string, micros: string -> nat)
    ensures Parse(line, micros) == NO_DATA || Explains(line, micros, Parse(line, micros))
  {
    hide SplitsInto, Scan, SpaceRun, Interpret, FindItems;
    if Parse(line, micros) != NO_DATA {
      var n := TimestampLength(line).value;
      var rest := line[n..];
      var r := ScanSpaces(rest, SpaceRun(rest)).value;
      ScanSpacesIsExact(rest, SpaceRun(rest));
      SplitMetadata(rest, r);
      assert line[n..|line| - |r.message|] == rest[..|rest| - |r.message|];
    }
  }

  lemma SplitMetadata(s: string, r: Scanned)
    requires SplitsInto(s, r)
    ensures |r.message| <= |s| && r.metadata == s[..|s| - |r.message|]
  {
  }

  /** A text without line breaks behind the timestamp matches if and only if it is white space
      and something more. */
  lemma MatchesIff(s: string)
    requires '\n' !in s
    ensures ScanSpaces(s, SpaceRun(s)).Some? <==> |s| >= 2 && IsSpace(s[0])
  {
    hide Scan, IsSpace;
    if |s| >= 2 && IsSpace(s[0]) {
      MessageOrMore(s[1..]);
      OneSpaceSuffices(s, SpaceRun(s));
    } else if s != [] && IsSpace(s[0]) {
      assert s[1..] == "" && ScanSpaces(s, 1) == if Scan("").None? then ScanSpaces(s, 0) else ScanSpaces(s, 1);
      NothingToScan();
    }
  }

  lemma MessageOrMore(s: string)
    requires s != [] && '\n' !in s
    ensures Scan(s).Some?
  {
  }

  lemma NothingToScan()
    ensures Scan("").None?
  {
  }

  lemma {:induction false} OneSpaceSuffices(s: string, k: nat)
    requires 1 <= k <= |s| && Scan(s[1..]).Some?
    ensures ScanSpaces(s, k).Some?
  {
    hide Scan;
    if k > 1 && Scan(s[k..]).None? {
      OneSpaceSuffices(s, k - 1);
    }
  }

  /** The interpretation of the items, as the parser does it step by step. */
  method InterpretItems(items: seq<string>) returns (meta: Meta)
    ensures meta == Interpret(items)
  {
    var level := Info;
    var i := 0;
    while i < |items| && StandaloneLevel(items[i]).None?
      invariant 0 <= i <= |items|
      invariant FirstLevel(items) == FirstLevel(items[i..])
    {
      assert items[i..][1..] == items[i + 1..];
      i := i + 1;
    }
    if i < |items| {
      level := StandaloneLevel(items[i]).value;
    }
    var rest := [];
    for j := 0 to |items|
      invariant rest == WithoutLevels(items[..j])
    {
      assert items[..j + 1][..j] == items[..j];
      if StandaloneLevel(items[j]).None? {
        rest := rest + [items[j]];
      }
    }
    assert items[..|items|] == items;
    var category, isTraceLog := UNKNOWN, false;
    if rest != [] {
      var parsed := ParseCategory(rest[|rest| - 1]);
      if parsed.Some? {
        category, isTraceLog := parsed.value, IsTrace(rest[|rest| - 1]);
        rest := rest[..|rest| - 1];
      }
    }
    if level == Info {
      level := if isTraceLog then Trace else if category == UNKNOWN then Info else Debug;
    }
    meta := Meta(category, if rest == [] then "" else rest[0], level);
  }

  method ParseCommonLogData(line: string, micros: string -> nat) returns (data: CommonLogData)
    ensures data == Parse(line, micros)
    ensures data == NO_DATA || Explains(line, micros, data)
  {
    ParseExplains(line, micros);
    var stamp := TimestampLength(line);
    if stamp.None? {
      return NO_DATA;
    }
    var rest := line[stamp.value..];
    var scanned := ScanSpaces(rest, SpaceRun(rest));
    if scanned.None? {
      return NO_DATA;
    }
    var meta := InterpretItems(FindItems(scanned.value.metadata));
    data := CommonLogData(micros(line[..stamp.value]), meta, scanned.value.message);
  }

  // ---------- Rendering ----------

  function Bracketed(items: seq<string>): string {
    if items == [] then "" else "[" + items[0] + "] " + Bracketed(items[1..])
  }

  /** An item that can stand between brackets. */
  predicate Renderable(item: string) {
    item != [] && ']' !in item
  }

  /** A message that cannot be taken for metadata. */
  predicate PlainMessage(message: string) {
    message != [] && '\n' !in message && message[0] != '[' && !IsSpace(message[0])
  }

  lemma ItemRendered(item: string, after: string)
    requires Renderable(item)
    ensures ItemAt("[" + item + "]" + after) == Some((item, after))
  {
    var s := "[" + item + "]" + after;
    assert s[1..] == item + [']'] + after;
    SplitAtFirst(item, ']', after);
  }

  lemma OneSpace(rest: string)
    requires rest != [] && !IsSpace(rest[0])
    ensures SpaceRun(" " + rest) == 1 && (" " + rest)[1..] == rest
  {
    assert (" " + rest)[1..] == rest;
  }

  lemma ScanPlain(message: string)
    requires PlainMessage(message)
    ensures Scan(message) == Some(Scanned("", message))
  {
    assert ItemAt(message) == None;
  }

  /** Behind the spaces there are items or the message, but no more space. */
  lemma StartsPlain(items: seq<string>, message: string)
    requires PlainMessage(message)
    ensures var body := Bracketed(items) + message; body != [] && !IsSpace(body[0])
  {
    var body := Bracketed(items) + message;
    if items == [] {
      assert body == message;
    } else {
      assert body[0] == '[';
    }
  }

  /** The scanner takes exactly the rendered items and leaves the message. */
  lemma {:induction false} ScanRendered(items: seq<string>, message: string)
    requires PlainMessage(message) && forall i :: 0 <= i < |items| ==> Renderable(items[i])
    ensures Scan(Bracketed(items) + message) == Some(Scanned(Bracketed(items), message))
  {
    hide Scan, ItemAt, SpaceRun, PlainMessage, IsSpace;
    var s := Bracketed(items) + message;
    if items == [] {
      assert s == message;
      ScanPlain(message);
    } else {
      var item, rest := items[0], Bracketed(items[1..]) + message;
      ScanRendered(items[1..], message);
      assert s == "[" + item + "]" + (" " + rest);
      ItemRendered(item, " " + rest);
      StartsPlain(items[1..], message);
      OneSpace(rest);
      ScanOne(s, item, rest);
      assert "[" + item + "]" + (" " + Bracketed(items[1..])) == Bracketed(items);
    }
  }

  lemma ScanOne(s: string, item: string, rest: string)
    requires s == "[" + item + "]" + (" " + rest) && ItemAt(s) == Some((item, " " + rest))
    requires SpaceRun(" " + rest) == 1 && Scan(rest).Some?
    ensures Scan(s) == Some(Scanned("[" + item + "]" + (" " + Scan(rest).value.metadata), Scan(rest).value.message))
  {
    var after, r := " " + rest, Scan(rest).value;
    assert after[1..] == rest && after[..1] == " ";
    assert ScanSpaces(after, 1) == Some(r.(metadata := " " + r.metadata));
    assert s[..|s| - |after|] == "[" + item + "]";
  }

  lemma {:induction false} ItemsFound(items: seq<string>)
    requires forall i :: 0 <= i < |items| ==> Renderable(items[i])
    ensures FindItems(Bracketed(items)) == items
  {
    if items != [] {
      var item, rest := items[0], Bracketed(items[1..]);
      ItemsFound(items[1..]);
      assert Bracketed(items) == "[" + item + "]" + (" " + rest);
      ItemRendered(item, " " + rest);
      assert ItemAt(" " + rest) == None && (" " + rest)[1..] == rest;
    }
  }

  lemma {:induction false} DigitsPrefix(s: string, t: string)
    requires DigitRun(s) < |s|
    ensures DigitRun(s + t) == DigitRun(s)
  {
    if IsDigit(s[0]) {
      assert (s + t)[1..] == s[1..] + t;
      DigitsPrefix(s[1..], t);
    }
  }

  /** What stands in the pattern is decided before the text goes on. */
  lemma StartsLikePrefix(s: string, t: string, pattern: string)
    requires StartsLike(s, pattern)
    ensures StartsLike(s + t, pattern)
  {
  }

  lemma NoFraction(s: string, t: string)
    requires StartsLike(s, "Z")
    ensures !StartsLike(s, ".d") && !StartsLike(s + t, ".d")
  {
    assert (s + t)[0] == s[0] == "Z"[0];
    assert ".d"[0] == '.';
  }

  /** A timestamp is recognised whatever follows it. */
  lemma TimestampRendered(stamp: string, rest: string)
    requires TimestampLength(stamp) == Some(|stamp|)
    ensures TimestampLength(stamp + rest) == Some(|stamp|)
  {
    hide StartsLike, DigitRun;
    var line, tail := stamp + rest, stamp[19..];
    StartsLikePrefix(stamp, rest, "dddd-dd-ddTdd:dd:dd");
    assert line[19..] == tail + rest;
    if StartsLike(tail, ".d") {
      FractionRendered(stamp, rest);
    } else {
      assert stamp[19 + 0..] == tail && line[19 + 0..] == tail + rest;
      StartsLikePrefix(tail, rest, "Z");
      NoFraction(tail, rest);
    }
  }

  /** A date and a time with zero or one to six digits of a second. */
  predicate IsStamp(s: string) {
    && 20 <= |s| <= 27 && |s| != 21 && s[|s| - 1] == 'Z' && StartsLike(s, "dddd-dd-ddTdd:dd:dd")
    && (|s| > 20 ==> s[19] == '.' && forall i :: 20 <= i < |s| - 1 ==> IsDigit(s[i]))
  }

  lemma {:induction false} DigitRunIs(s: string, n: nat)
    requires n <= |s| && (forall i :: 0 <= i < n ==> IsDigit(s[i])) && (n < |s| ==> !IsDigit(s[n]))
    ensures DigitRun(s) == n
  {
    if n > 0 {
      DigitRunIs(s[1..], n - 1);
    }
  }

  lemma {:induction false} DigitRunDigits(s: string)
    ensures forall i :: 0 <= i < DigitRun(s) ==> IsDigit(s[i])
  {
    if s != [] && IsDigit(s[0]) {
      DigitRunDigits(s[1..]);
      assert forall i :: 0 < i < DigitRun(s) ==> s[i] == s[1..][i - 1];
    }
  }

  lemma StampIsWhole(s: string)
    requires IsStamp(s)
    ensures TimestampLength(s) == Some(|s|)
  {
    var tail, last := s[19..], |s| - 1;
    if |s| == 20 {
      assert tail == "Z" && s[19 + 0..] == "Z" && ".d"[0] == '.';
    } else {
      assert tail[0] == '.' && tail[1] == s[20] && StartsLike(tail, ".d");
      assert forall i :: 0 <= i < |s| - 21 ==> s[20..][i] == s[i + 20];
      assert s[20..][|s| - 21] == 'Z' && !IsDigit('Z');
      DigitRunIs(s[20..], |s| - 21);
      assert s[19 + (|s| - 20)..] == "Z";
    }
  }

  lemma StampFound(line: string)
    requires TimestampLength(line).Some?
    ensures TimestampLength(line).value <= |line| && IsStamp(line[..TimestampLength(line).value])
  {
    var n, tail := TimestampLength(line).value, line[19..];
    var s := line[..n];
    if StartsLike(tail, ".d") {
      DigitRunDigits(line[20..]);
      assert tail[0] == line[19] && tail[1] == line[20];
      assert forall i :: 20 <= i < n - 1 ==> s[i] == line[20..][i - 20];
      assert DigitRun(line[20..]) >= 1;
      assert line[n - 1..][0] == line[n - 1];
    } else {
      assert tail[0] == line[19];
    }
  }

  /** Exactly which lines start with a timestamp, and how long it is. */
  lemma TimestampIff(line: string, n: nat)
    ensures TimestampLength(line) == Some(n) <==> n <= |line| && IsStamp(line[..n])
  {
    hide TimestampLength, IsStamp;
    if TimestampLength(line) == Some(n) {
      StampFound(line);
    }
    if n <= |line| && IsStamp(line[..n]) {
      StampIsWhole(line[..n]);
      TimestampRendered(line[..n], line[n..]);
      assert line == line[..n] + line[n..];
    }
  }

  lemma FractionRendered(stamp: string, rest: string)
    requires TimestampLength(stamp) == Some(|stamp|) && StartsLike(stamp[19..], ".d")
    ensures var line, n := stamp + rest, 1 + DigitRun(stamp[20..]);
      && StartsLike(line[19..], ".d") && 1 + DigitRun(line[20..]) == n
      && n <= 7 && 20 + n == |stamp| && StartsLike(line[19 + n..], "Z")
  {
    hide StartsLike;
    var line, n := stamp + rest, DigitRun(stamp[20..]);
    assert line[19..] == stamp[19..] + rest && line[20..] == stamp[20..] + rest;
    StartsLikePrefix(stamp[19..], rest, ".d");
    DigitsPrefix(stamp[20..], rest);
    assert line[20 + n..] == stamp[20 + n..] + rest;
    StartsLikePrefix(stamp[20 + n..], rest, "Z");
  }

  /** Behind the timestamp, the scanner finds the items and the message. */
  lemma BodyScanned(items: seq<string>, message: string)
    requires PlainMessage(message) && forall i :: 0 <= i < |items| ==> Renderable(items[i])
    ensures var rest := " " + (Bracketed(items) + message);
      ScanSpaces(rest, SpaceRun(rest)) == Some(Scanned(" " + Bracketed(items), message))
    ensures FindItems(" " + Bracketed(items)) == items
  {
    hide Scan, SpaceRun, PlainMessage, IsSpace;
    var body := Bracketed(items) + message;
    ScanRendered(items, message);
    StartsPlain(items, message);
    OneSpace(body);
    assert (" " + body)[..1] == " ";
    ItemsFound(items);
    assert ItemAt(" " + Bracketed(items)) == None && (" " + Bracketed(items))[1..] == Bracketed(items);
  }

  /** The general law: a line with a timestamp, any renderable items and a plain message is
      parsed to that timestamp, the meaning of those items, and that message. */
  lemma LineRoundTrip(stamp: string, items: seq<string>, message: string, micros: string -> nat)
    requires TimestampLength(stamp) == Some(|stamp|) && PlainMessage(message)
    requires forall i :: 0 <= i < |items| ==> Renderable(items[i])
    ensures Parse(stamp + " " + Bracketed(items) + message, micros) ==
            CommonLogData(micros(stamp), Interpret(items), message)
  {
    hide Parse, TimestampLength, ScanSpaces, SpaceRun, FindItems, Interpret, Bracketed, PlainMessage, Renderable;
    var rest := " " + (Bracketed(items) + message);
    var line := stamp + " " + Bracketed(items) + message;
    assert line == stamp + rest;
    TimestampRendered(stamp, rest);
    assert line[..|stamp|] == stamp && line[|stamp|..] == rest;
    BodyScanned(items, message);
    ParseIs(line, |stamp|, rest, Scanned(" " + Bracketed(items), message), micros);
  }

  lemma ParseIs(line: string, n: nat, rest: string, r: Scanned, micros: string -> nat)
    requires TimestampLength(line) == Some(n) && n <= |line| && line[n..] == rest
    requires ScanSpaces(rest, SpaceRun(rest)) == Some(r)
    ensures Parse(line, micros) == CommonLogData(micros(line[..n]), Interpret(FindItems(r.metadata)), r.message)
  {
  }

  // ---------- Bitcoin Core's layout ----------

  /** What Bitcoin Core puts in front of a message: a thread, source locations, an error or
      warning, and a category that may be marked as trace. */
  datatype Prefix = Prefix(thread: Option<string>, sources: seq<string>, level: Option<Level>,
                           category: Option<string>, trace: bool)

  function ItemsOf(p: Prefix): seq<string> {
    (if p.thread.Some? then [p.thread.value] else [])
    + p.sources
    + (if p.level.Some? then [if p.level.value.Error? then "error" else "warning"] else [])
    + (if p.category.Some? then [p.category.value + if p.trace then ":trace" else ""] else [])
  }

  predicate Names(items: seq<string>) {
    forall i :: 0 <= i < |items| ==> StandaloneLevel(items[i]).None?
  }

  predicate WellFormed(p: Prefix) {
    && (p.sources != [] ==> p.thread.Some?)
    && (p.level.Some? ==> p.level.value.Error? || p.level.value.Warning?)
    && (p.thread.Some? ==> StandaloneLevel(p.thread.value).None?) && Names(p.sources)
    && (p.category.Some? ==> IndexIn(CATEGORIES, ToUpper(p.category.value)).Some?)
    && (p.category.None? ==> (p.sources != [] ==> ParseCategory(p.sources[|p.sources| - 1]).None?)
                             && (p.sources == [] && p.thread.Some? ==> ParseCategory(p.thread.value).None?))
  }

  /** What should come out of it. */
  function Meaning(p: Prefix): Meta {
    var category := if p.category.Some? && IndexIn(CATEGORIES, ToUpper(p.category.value)).Some?
                    then IndexIn(CATEGORIES, ToUpper(p.category.value)).value else UNKNOWN;
    Meta(category, if p.thread.Some? then p.thread.value else "",
         if p.level.Some? then p.level.value
         else if p.category.Some? && p.trace then Trace
         else if category == UNKNOWN then Info
         else Debug)
  }

  lemma {:induction false} IndexFound(names: seq<string>, name: string)
    requires IndexIn(names, name).Some?
    ensures name in names
  {
    if names[|names| - 1] != name {
      IndexFound(names[..|names| - 1], name);
    }
  }

  predicate PlainName(name: string) {
    ':' !in name && name != "ERROR" && name != "WARNING"
  }

  lemma PlainTo6(name: string)
    requires name in CATEGORIES_TO_6
    ensures PlainName(name)
  {
  }

  lemma PlainTo13(name: string)
    requires name in CATEGORIES_TO_13
    ensures PlainName(name)
  {
  }

  lemma PlainTo20(name: string)
    requires name in CATEGORIES_TO_20
    ensures PlainName(name)
  {
  }

  lemma PlainTo28(name: string)
    requires name in CATEGORIES_TO_28
    ensures PlainName(name)
  {
  }

  /** No category is named like a level, and none has a colon in its name. */
  lemma CategoryNames(name: string)
    requires name in CATEGORIES
    ensures PlainName(name)
  {
    hide PlainName;
    if name in CATEGORIES_TO_6 {
      PlainTo6(name);
    } else if name in CATEGORIES_TO_13 {
      PlainTo13(name);
    } else if name in CATEGORIES_TO_20 {
      PlainTo20(name);
    } else {
      PlainTo28(name);
    }
  }

  lemma NoColonNoTrace(name: string)
    requires ':' !in ToUpper(name)
    ensures !IsTrace(name)
  {
    if |name| >= 6 {
      assert ToUpper(name)[|name| - 6] != ':';
      assert name[|name| - 6..][0] != ':';
    }
  }

  /** The item of a category is read back as that category and is no level. */
  lemma CategoryItem(name: string, trace: bool)
    requires IndexIn(CATEGORIES, ToUpper(name)).Some?
    ensures var item := name + if trace then ":trace" else "";
      && ParseCategory(item) == IndexIn(CATEGORIES, ToUpper(name))
      && IsTrace(item) == trace && StandaloneLevel(item).None?
  {
    hide IndexIn, CATEGORIES, StandaloneLevel;
    IndexFound(CATEGORIES, ToUpper(name));
    CategoryNames(ToUpper(name));
    if trace {
      var item := name + ":trace";
      assert item[|item| - 6..] == ":trace" && item[..|item| - 6] == name;
      ColonNoLevel(item, |name|);
    } else {
      assert name + "" == name;
      NoColonNoTrace(name);
      NoLevel(name);
    }
  }

  lemma ColonNoLevel(item: string, i: nat)
    requires i < |item| && item[i] == ':'
    ensures StandaloneLevel(item).None?
  {
    assert ToLower(item)[i] == ':';
  }

  lemma NoLevel(name: string)
    requires ToUpper(name) != "ERROR" && ToUpper(name) != "WARNING"
    ensures StandaloneLevel(name).None?
  {
    LowerUpper(name, "error", "ERROR");
    LowerUpper(name, "warning", "WARNING");
  }

  lemma LowerUpper(name: string, low: string, up: string)
    requires |low| == |up| && forall i :: 0 <= i < |low| ==> 'a' <= low[i] <= 'z' && up[i] == Upper(low[i])
    ensures ToLower(name) == low ==> ToUpper(name) == up
  {
    if ToLower(name) == low {
      forall i | 0 <= i < |name| ensures ToUpper(name)[i] == up[i] {
        assert Lower(name[i]) == low[i];
      }
    }
  }

  lemma {:induction false} LevelsAppend(a: seq<string>, b: seq<string>)
    ensures WithoutLevels(a + b) == WithoutLevels(a) + WithoutLevels(b)
    ensures FirstLevel(a + b) == if FirstLevel(a).Some? then FirstLevel(a) else FirstLevel(b)
  {
    WithoutAppend(a, b);
    FirstAppend(a, b);
  }

  lemma {:induction false} WithoutAppend(a: seq<string>, b: seq<string>)
    ensures WithoutLevels(a + b) == WithoutLevels(a) + WithoutLevels(b)
  {
    if b == [] {
      assert a + b == a;
    } else {
      assert (a + b)[..|a + b| - 1] == a + b[..|b| - 1];
      WithoutAppend(a, b[..|b| - 1]);
    }
  }

  lemma {:induction false} FirstAppend(a: seq<string>, b: seq<string>)
    ensures FirstLevel(a + b) == if FirstLevel(a).Some? then FirstLevel(a) else FirstLevel(b)
  {
    if a == [] {
      assert a + b == b;
    } else {
      assert (a + b)[1..] == a[1..] + b;
      FirstAppend(a[1..], b);
    }
  }

  lemma {:induction false} NamesStay(items: seq<string>)
    requires Names(items)
    ensures WithoutLevels(items) == items && FirstLevel(items) == None
  {
    NamesWithout(items);
    NamesFirst(items);
  }

  lemma {:induction false} NamesWithout(items: seq<string>)
    requires Names(items)
    ensures WithoutLevels(items) == items
  {
    if items != [] {
      NamesWithout(items[..|items| - 1]);
    }
  }

  lemma {:induction false} NamesFirst(items: seq<string>)
    requires Names(items)
    ensures FirstLevel(items) == None
  {
    if items != [] {
      NamesFirst(items[1..]);
    }
  }

  lemma LevelItem(level: Level)
    requires level.Error? || level.Warning?
    ensures var item := if level.Error? then "error" else "warning";
      StandaloneLevel(item) == Some(level) && WithoutLevels([item]) == [] && FirstLevel([item]) == Some(level)
  {
    assert ToLower("error") == "error" && ToLower("warning") == "warning";
    assert WithoutLevels([]) == [];
  }

  lemma ThreeParts(names: seq<string>, level: seq<string>, category: seq<string>)
    requires Names(names) && Names(category) && WithoutLevels(level) == []
    ensures WithoutLevels(names + level + category) == names + category
    ensures FirstLevel(names + level + category) == FirstLevel(level)
  {
    hide *;
    NamesStay(names);
    NamesStay(category);
    LevelsAppend(names, level);
    LevelsAppend(names + level, category);
    assert names + [] == names;
  }

  lemma NoItems()
    ensures WithoutLevels([]) == [] && FirstLevel([]) == None
  {
  }

  /** The items of a well-formed prefix mean what they were written for. */
  lemma PrefixMeaning(p: Prefix)
    requires WellFormed(p)
    ensures Interpret(ItemsOf(p)) == Meaning(p)
  {
    hide IndexIn, CATEGORIES, StandaloneLevel, IsTrace, ParseCategory, Interpret, Meaning, WithoutLevels, FirstLevel;
    var names := (if p.thread.Some? then [p.thread.value] else []) + p.sources;
    var level := if p.level.Some? then [if p.level.value.Error? then "error" else "warning"] else [];
    var category := if p.category.Some? then [p.category.value + if p.trace then ":trace" else ""] else [];
    assert WithoutLevels(level) == [] && FirstLevel(level) == p.level by {
      if p.level.Some? {
        LevelItem(p.level.value);
      } else {
        NoItems();
      }
    }
    if p.category.Some? {
      CategoryItem(p.category.value, p.trace);
    }
    ThreeParts(names, level, category);
    assert ItemsOf(p) == names + level + category;
    RestMeaning(p, names, category);
  }

  lemma RestMeaning(p: Prefix, names: seq<string>, category: seq<string>)
    requires WellFormed(p)
    requires names == (if p.thread.Some? then [p.thread.value] else []) + p.sources
    requires category == if p.category.Some? then [p.category.value + if p.trace then ":trace" else ""] else []
    requires WithoutLevels(ItemsOf(p)) == names + category && FirstLevel(ItemsOf(p)) == p.level
    ensures Interpret(ItemsOf(p)) == Meaning(p)
  {
    hide IndexIn, StandaloneLevel, IsTrace, ParseCategory, ItemsOf;
    var rest := names + category;
    if p.category.Some? {
      CategoryItem(p.category.value, p.trace);
      assert rest[|rest| - 1] == category[0] && rest[..|rest| - 1] == names;
    } else {
      assert rest == names;
      assert names != [] ==> ParseCategory(names[|names| - 1]).None?;
    }
    assert names != [] ==> p.thread.Some? && names[0] == p.thread.value;
  }

  /** The round trip of a line in Bitcoin Core's layout. */
  lemma CoreLineRoundTrip(stamp: string, p: Prefix, message: string, micros: string -> nat)
    requires TimestampLength(stamp) == Some(|stamp|) && PlainMessage(message) && WellFormed(p)
    requires forall i :: 0 <= i < |ItemsOf(p)| ==> Renderable(ItemsOf(p)[i])
    ensures Parse(stamp + " " + Bracketed(ItemsOf(p)) + message, micros) ==
            CommonLogData(micros(stamp), Meaning(p), message)
  {
    LineRoundTrip(stamp, ItemsOf(p), message, micros);
    PrefixMeaning(p);
  }

  lemma {:induction false} IndexIs(names: seq<string>, name: string, k: nat)
    requires k < |names| && names[k] == name && forall j :: k < j < |names| ==> names[j] != name
    ensures IndexIn(names, name) == Some(k)
  {
    if k < |names| - 1 {
      IndexIs(names[..|names| - 1], name, k);
    }
  }

  lemma {:induction false} IndexNames(names: seq<string>, name: string)
    requires IndexIn(names, name).Some?
    ensures IndexIn(names, name).value < |names| && names[IndexIn(names, name).value] == name
  {
    if names[|names| - 1] != name {
      IndexNames(names[..|names| - 1], name);
    }
  }

  lemma UnknownIsFirst(name: string)
    requires IndexIn(CATEGORIES, name).Some?
    ensures IndexIn(CATEGORIES, name) == Some(UNKNOWN) <==> name == "UNKNOWN"
  {
    hide IndexIn;
    assert CATEGORIES[0] == "UNKNOWN";
    IndexNames(CATEGORIES, name);
    if name == "UNKNOWN" {
      IndexIs(CATEGORIES, name, 0);
    }
  }

  /** A line with a category, but no level and no trace mark, is reported at debug level if and
      only if the category is not the unknown one, and otherwise at info. */
  lemma DebugIffNotUnknown(stamp: string, p: Prefix, message: string, micros: string -> nat)
    requires TimestampLength(stamp) == Some(|stamp|) && PlainMessage(message) && WellFormed(p)
    requires forall i :: 0 <= i < |ItemsOf(p)| ==> Renderable(ItemsOf(p)[i])
    requires p.category.Some? && p.level.None? && !p.trace
    ensures Parse(stamp + " " + Bracketed(ItemsOf(p)) + message, micros).meta.level ==
            if ToUpper(p.category.value) != "UNKNOWN" then Debug else Info
  {
    hide Parse, TimestampLength, PlainMessage, Renderable, Bracketed, ItemsOf, IndexIn, CATEGORIES;
    CoreLineRoundTrip(stamp, p, message, micros);
    UnknownIsFirst(ToUpper(p.category.value));
  }

  /** Two debug lines that differ in their category: one is reported at info. */
  lemma UnknownReportedAtInfo(micros: string -> nat)
    ensures Parse("2025-10-02T02:31:14Z [unknown] hi", micros).meta.level == Info
    ensures Parse("2025-10-02T02:31:14Z [net] hi", micros).meta.level == Debug
  {
    hide Parse, IndexIn, CATEGORIES, ToUpper;
    TwoNames();
    PlainDebugLine("unknown", micros);
    PlainDebugLine("net", micros);
    assert "2025-10-02T02:31:14Z" + " [" + "unknown" + "] hi" == "2025-10-02T02:31:14Z [unknown] hi";
    assert "2025-10-02T02:31:14Z" + " [" + "net" + "] hi" == "2025-10-02T02:31:14Z [net] hi";
  }

  lemma TwoNames()
    ensures ToUpper("unknown") == "UNKNOWN" && ToUpper("net") == "NET"
    ensures IndexIn(CATEGORIES, "UNKNOWN") == Some(0) && IndexIn(CATEGORIES, "NET") == Some(14)
  {
    hide IndexIn;
    assert CATEGORIES[0] == "UNKNOWN" && CATEGORIES[14] == "NET";
    IndexIs(CATEGORIES, "UNKNOWN", 0);
    IndexIs(CATEGORIES, "NET", 14);
  }

  lemma PlainDebugLine(category: string, micros: string -> nat)
    requires IndexIn(CATEGORIES, ToUpper(category)).Some? && Renderable(category)
    ensures Parse("2025-10-02T02:31:14Z" + " [" + category + "] hi", micros).meta.level ==
            if ToUpper(category) != "UNKNOWN" then Debug else Info
  {
    hide Parse, IndexIn, CATEGORIES, TimestampLength;
    var stamp, p := "2025-10-02T02:31:14Z", Prefix(None, [], None, Some(category), false);
    StampOfASecond();
    assert category + "" == category;
    assert ItemsOf(p) == [category];
    assert Bracketed([category]) == "[" + category + "] " + "" by {
      assert [category][1..] == [];
    }
    DebugIffNotUnknown(stamp, p, "hi", micros);
    assert stamp + " " + Bracketed(ItemsOf(p)) + "hi" == stamp + " [" + category + "] hi";
  }

  lemma StampOfASecond()
    ensures TimestampLength("2025-10-02T02:31:14Z") == Some(20)
  {
    var stamp := "2025-10-02T02:31:14Z";
    assert stamp[19 + 0..] == "Z" && stamp[19..] == "Z";
    assert ".d"[0] == '.';
    assert StartsLike(stamp, "dddd-dd-ddTdd:dd:dd");
  }
  // ---------- The meaning of any items ----------

  lemma {:induction false} OnlyLevels(items: seq<string>)
    requires forall i :: 0 <= i < |items| ==> StandaloneLevel(items[i]).Some?
    ensures WithoutLevels(items) == []
  {
    if items != [] {
      OnlyLevels(items[..|items| - 1]);
    }
  }

  /** Item `f` is the first and item `l` the last one that is not a level. */
  ghost predicate FirstAndLast(items: seq<string>, f: nat, l: nat) {
    && f <= l < |items| && StandaloneLevel(items[f]).None? && StandaloneLevel(items[l]).None?
    && (forall i :: 0 <= i < f ==> StandaloneLevel(items[i]).Some?)
    && (forall i :: l < i < |items| ==> StandaloneLevel(items[i]).Some?)
  }

  lemma Around<T>(s: seq<T>, i: nat)
    requires i < |s|
    ensures s == s[..i] + [s[i]] + s[i + 1..] && s == s[..i] + ([s[i]] + s[i + 1..])
  {
  }

  lemma BehindLevels(items: seq<string>, f: nat)
    requires f < |items| && StandaloneLevel(items[f]).None?
    requires forall i :: 0 <= i < f ==> StandaloneLevel(items[i]).Some?
    ensures WithoutLevels(items) == [items[f]] + WithoutLevels(items[f + 1..])
  {
    hide *;
    var front, x, tail := items[..f], [items[f]], items[f + 1..];
    Around(items, f);
    OnlyLevels(front);
    OneName(items[f]);
    assert WithoutLevels(front + x) == x by {
      WithoutAppend(front, x);
    }
    WithoutAppend(front + x, tail);
  }

  lemma BeforeLevels(items: seq<string>, l: nat)
    requires l < |items| && StandaloneLevel(items[l]).None?
    requires forall i :: l < i < |items| ==> StandaloneLevel(items[i]).Some?
    ensures WithoutLevels(items) == WithoutLevels(items[..l]) + [items[l]]
  {
    hide *;
    var front, x, tail := items[..l], [items[l]], items[l + 1..];
    Around(items, l);
    OnlyLevels(tail);
    OneName(items[l]);
    assert WithoutLevels(x + tail) == x by {
      WithoutAppend(x, tail);
    }
    WithoutAppend(front, x + tail);
  }

  lemma RestIs(items: seq<string>, f: nat, l: nat)
    requires FirstAndLast(items, f, l)
    ensures var rest := WithoutLevels(items);
      rest != [] && rest[0] == items[f] && rest[|rest| - 1] == items[l] && (|rest| == 1 <==> f == l)
  {
    hide StandaloneLevel, WithoutLevels;
    BehindLevels(items, f);
    BeforeLevels(items, l);
    if f == l {
      OnlyLevels(items[f + 1..]);
    } else {
      var tail := items[f + 1..];
      assert tail[l - f - 1] == items[l];
      BeforeLevels(tail, l - f - 1);
    }
  }

  lemma OneName(item: string)
    requires StandaloneLevel(item).None?
    ensures WithoutLevels([item]) == [item]
  {
    assert [item][..0] == [];
  }

  /** Whatever the items: the category is that of the last item which is not a level, if that is a
      category; the thread is the first item which is not a level, unless that was the category. */
  lemma CategoryAndThread(items: seq<string>, f: nat, l: nat)
    requires FirstAndLast(items, f, l)
    ensures var category := ParseCategory(items[l]);
      && Interpret(items).category == (if category.Some? then category.value else 0)
      && Interpret(items).threadname == (if category.Some? && f == l then "" else items[f])
  {
    hide StandaloneLevel, ParseCategory, IsTrace, WithoutLevels;
    RestIs(items, f, l);
  }

  lemma {:induction false} FirstLevelAt(items: seq<string>, k: nat)
    requires k <= |items| && (forall i :: 0 <= i < k ==> StandaloneLevel(items[i]).None?)
    requires k < |items| ==> StandaloneLevel(items[k]).Some?
    ensures FirstLevel(items) == if k < |items| then StandaloneLevel(items[k]) else None
  {
    if k > 0 {
      FirstLevelAt(items[1..], k - 1);
    }
  }

  /** The level is that of the first item which is a level. */
  lemma LevelOfFirst(items: seq<string>, k: nat)
    requires k < |items| && StandaloneLevel(items[k]).Some?
    requires forall i :: 0 <= i < k ==> StandaloneLevel(items[i]).None?
    ensures Interpret(items).level == StandaloneLevel(items[k]).value
  {
    hide StandaloneLevel, ParseCategory, IsTrace, WithoutLevels;
    FirstLevelAt(items, k);
  }

  /** If no item is a level, a last item that names a category decides: trace if it is marked so,
      otherwise info for the unknown category and debug for any other. */
  lemma LevelOfLast(items: seq<string>)
    requires Names(items) && items != []
    ensures var (last, category) := (items[|items| - 1], ParseCategory(items[|items| - 1]));
      Interpret(items).level ==
      if category.None? then Info
      else if |last| >= 6 && last[|last| - 6..] == ":trace" then Trace
      else if category.value == 0 then Info
      else Debug
  {
    hide StandaloneLevel, ParseCategory, WithoutLevels;
    NamesStay(items);
  }

  /** Spelled in lower or upper case, or mixed. */
  predicate Spells(item: string, low: string, up: string)
    requires |low| == |up|
  {
    |item| == |low| && forall i :: 0 <= i < |item| ==> item[i] == low[i] || item[i] == up[i]
  }

  lemma LowerSpells(item: string, low: string, up: string)
    requires |low| == |up| && forall i :: 0 <= i < |low| ==> 'a' <= low[i] <= 'z' && up[i] == 'A' + (low[i] - 'a')
    ensures ToLower(item) == low <==> Spells(item, low, up)
    ensures ToUpper(item) == up <==> Spells(item, low, up)
  {
    if Spells(item, low, up) {
      assert forall i :: 0 <= i < |item| ==> Lower(item[i]) == low[i] && Upper(item[i]) == up[i];
    }
    if ToLower(item) == low {
      assert forall i :: 0 <= i < |item| ==> Lower(item[i]) == low[i];
    }
    if ToUpper(item) == up {
      assert forall i :: 0 <= i < |item| ==> Upper(item[i]) == up[i];
    }
  }

  /** The only levels are these two words, in any case. */
  lemma LevelIff(item: string)
    ensures StandaloneLevel(item) == Some(Error) <==> Spells(item, "error", "ERROR")
    ensures StandaloneLevel(item) == Some(Warning) <==> Spells(item, "warning", "WARNING")
    ensures StandaloneLevel(item).Some? ==> StandaloneLevel(item).value in {Error, Warning}
  {
    hide Spells, ToLower;
    LowerSpells(item, "error", "ERROR");
    LowerSpells(item, "warning", "WARNING");
  }
  // ---------- Items with any white space ----------

  /** An item and the white space behind it. */
  datatype Part = Part(item: string, space: string) {
    ghost predicate Valid() {
      item != [] && ']' !in item && space != [] && forall i :: 0 <= i < |space| ==> IsSpace(space[i])
    }
  }

  ghost predicate AllValid(parts: seq<Part>) {
    forall i :: 0 <= i < |parts| ==> parts[i].Valid()
  }

  function LaidOut(parts: seq<Part>): string {
    if parts == [] then "" else "[" + parts[0].item + "]" + parts[0].space + LaidOut(parts[1..])
  }

  function ItemsIn(parts: seq<Part>): seq<string> {
    if parts == [] then [] else [parts[0].item] + ItemsIn(parts[1..])
  }

  lemma {:induction false} SpacesBefore(space: string, rest: string)
    requires (forall i :: 0 <= i < |space| ==> IsSpace(space[i])) && rest != [] && !IsSpace(rest[0])
    ensures SpaceRun(space + rest) == |space|
  {
    hide IsSpace;
    if space == [] {
      assert space + rest == rest;
    } else {
      assert (space + rest)[1..] == space[1..] + rest;
      SpacesBefore(space[1..], rest);
    }
  }

  lemma BodyStarts(parts: seq<Part>, message: string)
    requires PlainMessage(message)
    ensures var body := LaidOut(parts) + message; body != [] && !IsSpace(body[0])
  {
    var body := LaidOut(parts) + message;
    if parts == [] {
      assert body == message;
    } else {
      assert body[0] == '[';
    }
  }

  lemma ScanSpace(space: string, rest: string)
    requires space != [] && (forall i :: 0 <= i < |space| ==> IsSpace(space[i])) && rest != [] && !IsSpace(rest[0])
    requires Scan(rest).Some?
    ensures ScanSpaces(space + rest, SpaceRun(space + rest)) ==
            Some(Scanned(space + Scan(rest).value.metadata, Scan(rest).value.message))
  {
    hide Scan, IsSpace, SpaceRun;
    SpacesBefore(space, rest);
    assert (space + rest)[|space|..] == rest && (space + rest)[..|space|] == space;
  }

  lemma ScanPart(p: Part, rest: string)
    requires p.Valid() && rest != [] && !IsSpace(rest[0]) && Scan(rest).Some?
    ensures Scan("[" + p.item + "]" + p.space + rest) ==
            Some(Scanned("[" + p.item + "]" + p.space + Scan(rest).value.metadata, Scan(rest).value.message))
  {
    hide ScanSpaces, ItemAt, IsSpace, SpaceRun;
    var s, after := "[" + p.item + "]" + p.space + rest, p.space + rest;
    assert s == "[" + p.item + "]" + after;
    ItemIff(s, p.item, after);
    ScanSpace(p.space, rest);
    assert s[..|s| - |after|] == "[" + p.item + "]";
    ScanItem(s, p.item, after);
    assert "[" + p.item + "]" + (p.space + Scan(rest).value.metadata) ==
           "[" + p.item + "]" + p.space + Scan(rest).value.metadata;
  }

  lemma ScanItem(s: string, item: string, after: string)
    requires ItemAt(s) == Some((item, after)) && ScanSpaces(after, SpaceRun(after)).Some?
    ensures var r := ScanSpaces(after, SpaceRun(after)).value;
      Scan(s) == Some(Scanned(s[..|s| - |after|] + r.metadata, r.message))
  {
  }

  /** However much white space is behind the items, the scanner takes them all. */
  lemma {:induction false} ScanLaidOut(parts: seq<Part>, message: string)
    requires AllValid(parts) && PlainMessage(message)
    ensures Scan(LaidOut(parts) + message) == Some(Scanned(LaidOut(parts), message))
  {
    hide Scan, IsSpace, PlainMessage;
    if parts == [] {
      assert LaidOut(parts) + message == message;
      ScanPlain(message);
    } else {
      var p, rest := parts[0], LaidOut(parts[1..]) + message;
      ScanLaidOut(parts[1..], message);
      BodyStarts(parts[1..], message);
      ScanPart(p, rest);
      assert LaidOut(parts) + message == "[" + p.item + "]" + p.space + rest;
    }
  }

  lemma {:induction false} FindPast(space: string, rest: string)
    requires forall i :: 0 <= i < |space| ==> IsSpace(space[i])
    ensures FindItems(space + rest) == FindItems(rest)
  {
    if space == [] {
      assert space + rest == rest;
    } else {
      assert (space + rest)[1..] == space[1..] + rest;
      assert ItemAt(space + rest) == None;
      FindPast(space[1..], rest);
    }
  }

  lemma {:induction false} LaidOutFound(parts: seq<Part>)
    requires AllValid(parts)
    ensures FindItems(LaidOut(parts)) == ItemsIn(parts)
  {
    hide IsSpace, ItemAt;
    if parts != [] {
      var p, rest := parts[0], LaidOut(parts[1..]);
      LaidOutFound(parts[1..]);
      assert LaidOut(parts) == "[" + p.item + "]" + (p.space + rest);
      ItemIff(LaidOut(parts), p.item, p.space + rest);
      FindPast(p.space, rest);
    }
  }

  /** The most general line: a timestamp, white space, items with any white space behind each, and
      a plain message. */
  lemma LaidOutLine(stamp: string, lead: string, parts: seq<Part>, message: string, micros: string -> nat)
    requires TimestampLength(stamp) == Some(|stamp|) && PlainMessage(message) && AllValid(parts)
    requires lead != [] && forall i :: 0 <= i < |lead| ==> IsSpace(lead[i])
    ensures Parse(stamp + lead + LaidOut(parts) + message, micros) ==
            CommonLogData(micros(stamp), Interpret(ItemsIn(parts)), message)
  {
    hide Parse, Scan, ScanSpaces, SpaceRun, FindItems, TimestampLength, Interpret, IsSpace, PlainMessage, AllValid;
    var body := LaidOut(parts) + message;
    var rest, line := lead + body, stamp + lead + LaidOut(parts) + message;
    assert line == stamp + rest;
    TimestampRendered(stamp, rest);
    assert line[..|stamp|] == stamp && line[|stamp|..] == rest;
    ScanLaidOut(parts, message);
    BodyStarts(parts, message);
    ScanSpace(lead, body);
    LaidOutFound(parts);
    FindPast(lead, LaidOut(parts));
    ParseIs(line, |stamp|, rest, Scanned(lead + LaidOut(parts), message), micros);
  }

  /** All that the scanner takes for metadata is items, with white space behind each. */
  lemma {:induction false} ScanTakesItems(s: string) returns (parts: seq<Part>)
    requires Scan(s).Some?
    ensures AllValid(parts) && Scan(s).value.metadata == LaidOut(parts)
    decreases |s|, 0
  {
    hide IsSpace, Part.Valid;
    parts := [];
    if ItemAt(s).Some? {
      var (item, after) := ItemAt(s).value;
      ItemIff(s, item, after);
      if ScanSpaces(after, SpaceRun(after)).Some? {
        var space, more := SpacesTakeItems(after, SpaceRun(after));
        RunIsSpace(after);
        parts := [Part(item, space)] + more;
        assert Part(item, space).Valid() by {
          IsValid(item, space);
        }
        assert parts[1..] == more;
        assert s[..|s| - |after|] == "[" + item + "]";
      }
    }
  }

  lemma IsValid(item: string, space: string)
    requires item != [] && ']' !in item && space != [] && forall i :: 0 <= i < |space| ==> IsSpace(space[i])
    ensures Part(item, space).Valid()
  {
  }

  lemma {:induction false} RunIsSpace(s: string)
    ensures forall i :: 0 <= i < SpaceRun(s) ==> IsSpace(s[i])
  {
    hide IsSpace;
    if s != [] && IsSpace(s[0]) {
      RunIsSpace(s[1..]);
      assert forall i :: 0 < i < SpaceRun(s) ==> s[i] == s[1..][i - 1];
    }
  }

  lemma {:induction false} SpacesTakeItems(s: string, k: nat) returns (space: string, parts: seq<Part>)
    requires k <= SpaceRun(s) && ScanSpaces(s, k).Some?
    ensures space != [] && |space| <= k && space == s[..|space|] && AllValid(parts)
    ensures forall i :: 0 <= i < |space| ==> IsSpace(space[i])
    ensures ScanSpaces(s, k).value.metadata == space + LaidOut(parts)
    decreases |s|, k
  {
    hide IsSpace, Scan, Part.Valid;
    if Scan(s[k..]).Some? {
      parts := ScanTakesItems(s[k..]);
      space := s[..k];
      RunIsSpace(s);
    } else {
      space, parts := SpacesTakeItems(s, k - 1);
    }
  }

  /** A line that does not match has no time, no category, no thread, and is at info. */
  lemma NoMatch(line: string, micros: string -> nat)
    requires TimestampLength(line).None?
    ensures Parse(line, micros) == CommonLogData(0, Meta(0, "", Info), "")
  {
  }
}
