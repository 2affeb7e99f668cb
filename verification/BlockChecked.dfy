/** The matcher for block-checked messages: a block hash and the text of a validation state,
    which is a reject reason and possibly a debug message behind a comma and a space. */
module BlockChecked {
  import opened Basics
  import opened LogMetadata

  const MARK := "BlockChecked: block hash="
  const STATE := " state="
  const HASH_LENGTH: nat := 64

  predicate IsHex(c: char) {
    '0' <= c <= '9' || 'a' <= c <= 'f'
  }

  lemma HexIff(c: char)
    ensures IsHex(c) <==> c in "0123456789abcdef"
  {
    var digits := "0123456789abcdef";
    if '0' <= c <= '9' {
      assert digits[c as int - '0' as int] == c;
    } else if 'a' <= c <= 'f' {
      assert digits[10 + c as int - 'a' as int] == c;
    }
  }

  predicate StartsWith(s: string, prefix: string) {
    |prefix| <= |s| && s[..|prefix|] == prefix
  }

  /** The pattern up to the state matches right here. */
  predicate HeaderAt(s: string) {
    && StartsWith(s, MARK) && |s| >= |MARK| + HASH_LENGTH
    && (forall i :: |MARK| <= i < |MARK| + HASH_LENGTH ==> IsHex(s[i]))
    && StartsWith(s[|MARK| + HASH_LENGTH..], STATE)
  }

  /** A comma and white space, where the reason ends. */
  predicate BreakAt(s: string, i: nat) {
    i + 1 < |s| && s[i] == ',' && IsSpace(s[i + 1])
  }

  /** The reason up to the first break, or up to the end, and what follows the break. */
  function SplitState(s: string): (string, string) {
    if s == [] then ("", "")
    else if BreakAt(s, 0) then ("", s[2..])
    else var (reason, debug) := SplitState(s[1..]); ([s[0]] + reason, debug)
  }

  datatype Checked = Checked(hash: string, state: string, debugMessage: string)

  /** Searches from the left. A message has no line break, so behind a header the rest of the
      pattern always matches. */
  function ParseEvent(message: string): Option<Checked>
    requires '\n' !in message
  {
    if message == [] then None
    else if HeaderAt(message) then
      var (state, debug) := SplitState(message[|MARK| + HASH_LENGTH + |STATE|..]);
      Some(Checked(message[|MARK|..|MARK| + HASH_LENGTH], state, debug))
    else ParseEvent(message[1..])
  }

  function RenderState(reason: string, debug: string): string {
    if debug == [] then reason else reason + ", " + debug
  }

  predicate NoBreak(s: string) {
    forall i: nat :: i < |s| ==> !BreakAt(s, i)
  }

  lemma {:induction false} SplitPlain(reason: string, debug: string)
    requires NoBreak(reason)
    ensures SplitState(RenderState(reason, debug)) == (reason, debug)
  {
    var s := RenderState(reason, debug);
    if reason == [] {
      assert debug != [] ==> s[2..] == debug && s[0] == ',' && s[1] == ' ';
    } else {
      assert NoBreak(reason[1..]) by {
        assert forall i: nat :: i < |reason| - 1 ==> BreakAt(reason[1..], i) == BreakAt(reason, i + 1);
      }
      SplitPlain(reason[1..], debug);
      assert s[1..] == RenderState(reason[1..], debug);
      assert !BreakAt(reason, 0);
      assert |reason| > 1 ==> s[1] == reason[1];
      assert |reason| == 1 && |s| > 1 ==> s[1] == ',';
      assert reason == [reason[0]] + reason[1..];
    }
  }

  lemma {:induction false} SplitHasNoBreak(s: string)
    ensures NoBreak(SplitState(s).0) && |SplitState(s).0| <= |s| && SplitState(s).0 == s[..|SplitState(s).0|]
  {
    if s != [] && !BreakAt(s, 0) {
      SplitHasNoBreak(s[1..]);
      var reason, tail := SplitState(s).0, SplitState(s[1..]).0;
      forall i: nat | i < |reason| ensures !BreakAt(reason, i) {
        assert i > 0 ==> !BreakAt(tail, i - 1);
        assert i == 0 && |reason| > 1 ==> reason[1] == s[1];
      }
    }
  }

  /** A text is split at its first comma with white space behind it. */
  lemma {:induction false} SplitAtBreak(s: string, i: nat)
    requires i + 1 < |s| && s[i] == ',' && IsSpace(s[i + 1])
    requires forall j :: 0 <= j < i ==> !(s[j] == ',' && IsSpace(s[j + 1]))
    ensures SplitState(s) == (s[..i], s[i + 2..])
  {
    if i > 0 {
      SplitAtBreak(s[1..], i - 1);
      assert s[..i] == [s[0]] + s[1..][..i - 1] && s[1..][i + 1..] == s[i + 2..];
    }
  }

  /** A text without one is all reason. */
  lemma {:induction false} SplitWithoutBreak(s: string)
    requires forall j :: 0 <= j < |s| - 1 ==> !(s[j] == ',' && IsSpace(s[j + 1]))
    ensures SplitState(s) == (s, "")
  {
    if s != [] {
      SplitWithoutBreak(s[1..]);
      assert s == [s[0]] + s[1..];
    }
  }

  /** A validation state is read back as its reason and its debug message if and only if the
      reason itself has no comma with white space behind it. */
  lemma StateRoundTripIff(reason: string, debug: string)
    ensures SplitState(RenderState(reason, debug)) == (reason, debug) <==> NoBreak(reason)
  {
    if NoBreak(reason) {
      SplitPlain(reason, debug);
    } else {
      SplitHasNoBreak(RenderState(reason, debug));
    }
  }

  /** A reason with a comma and a space is cut there, and the rest of it becomes part of the
      debug message. */
  lemma ReasonIsCut()
    ensures SplitState(RenderState("a, b", "c")) == ("a", "b, c")
  {
    hide SplitState;
    assert NoBreak("a");
    SplitPlain("a", "b, c");
    assert "a, b" + ", " + "c" == "a" + ", " + "b, c";
  }

  function Render(hash: string, reason: string, debug: string): string {
    MARK + hash + STATE + RenderState(reason, debug)
  }

  lemma RenderedHeader(hash: string, rest: string)
    requires |hash| == HASH_LENGTH && forall i :: 0 <= i < |hash| ==> IsHex(hash[i])
    ensures var s := MARK + hash + STATE + rest;
      HeaderAt(s) && s[|MARK|..|MARK| + HASH_LENGTH] == hash && s[|MARK| + HASH_LENGTH + |STATE|..] == rest
  {
    var s := MARK + hash + STATE + rest;
    assert s[|MARK| + HASH_LENGTH..] == STATE + rest;
    assert s[..|MARK|] == MARK;
    assert forall i :: |MARK| <= i < |MARK| + HASH_LENGTH ==> s[i] == hash[i - |MARK|];
  }

  /** A rendered event is found behind any text in which no earlier match starts. */
  lemma {:induction false} EventRoundTrip(before: string, hash: string, reason: string, debug: string)
    requires |hash| == HASH_LENGTH && forall i :: 0 <= i < |hash| ==> IsHex(hash[i])
    requires NoBreak(reason) && '\n' !in before + Render(hash, reason, debug)
    requires forall i :: 0 <= i < |before| ==> !HeaderAt((before + Render(hash, reason, debug))[i..])
    ensures ParseEvent(before + Render(hash, reason, debug)) == Some(Checked(hash, reason, debug))
  {
    var s := before + Render(hash, reason, debug);
    if before == [] {
      assert s == Render(hash, reason, debug);
      RenderedHeader(hash, RenderState(reason, debug));
      SplitPlain(reason, debug);
    } else {
      assert s[0..] == s;
      assert s[1..] == before[1..] + Render(hash, reason, debug);
      forall i | 0 <= i < |before| - 1 ensures !HeaderAt(s[1..][i..]) {
        assert s[1..][i..] == s[i + 1..];
      }
      EventRoundTrip(before[1..], hash, reason, debug);
    }
  }
  /** The event as Bitcoin Core writes it. */
  lemma CoreEvent(hash: string, reason: string, debug: string)
    requires |hash| == 64 && forall i :: 0 <= i < |hash| ==> hash[i] in "0123456789abcdef"
    requires NoBreak(reason) && '\n' !in reason && '\n' !in debug && debug != []
    ensures '\n' !in "BlockChecked: block hash=" + hash + " state=" + reason + ", " + debug
    ensures ParseEvent("BlockChecked: block hash=" + hash + " state=" + reason + ", " + debug) ==
            Some(Checked(hash, reason, debug))
  {
    hide ParseEvent, NoBreak;
    forall i | 0 <= i < |hash| ensures IsHex(hash[i]) && hash[i] != '\n' {
      HexIff(hash[i]);
    }
    var s := "BlockChecked: block hash=" + hash + " state=" + reason + ", " + debug;
    assert s == "" + Render(hash, reason, debug);
    EventRoundTrip("", hash, reason, debug);
  }

  /** Nothing is found in a message if and only if no header starts anywhere in it. */
  lemma {:induction false} NoEventIff(message: string)
    requires '\n' !in message
    ensures ParseEvent(message).None? <==> forall i :: 0 <= i < |message| ==> !HeaderAt(message[i..])
  {
    hide HeaderAt;
    if message != [] {
      assert message[0..] == message;
      if !HeaderAt(message) {
        NoEventIff(message[1..]);
        forall i | 0 <= i < |message| - 1 ensures message[1..][i..] == message[i + 1..] {
        }
        if i :| 0 < i < |message| && HeaderAt(message[i..]) {
          assert HeaderAt(message[1..][i - 1..]);
        }
      }
    }
  }
}
