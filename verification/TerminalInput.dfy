/** The incremental decoder of terminal input that drives the menu: chunks of bytes become key and
    paste events, and an unfinished tail is carried over to the next chunk. */
module TerminalInput {
  import opened Wrappers
  import opened Text
  import Decimal

  /** A paste event has an empty key; every other event has an empty paste. */
  datatype Event = Event(key: string, paste: seq<byte>)

  function KeyEvent(key: string): (r: Event) { Event(key, []) }

  const ESC: byte := 27
  const PASTE_START: seq<byte> := [27, 91, 50, 48, 48, 126]
  const PASTE_END: seq<byte> := [27, 91, 50, 48, 49, 126]

  datatype Sequence = Sequence(raw: seq<byte>, key: string)

  const SEQUENCES: seq<Sequence> := [
    Sequence([27, 91, 65], "up"), Sequence([27, 91, 66], "down"),
    Sequence([27, 91, 67], "right"), Sequence([27, 91, 68], "left"),
    Sequence([27, 91, 53, 126], "pgup"), Sequence([27, 91, 54, 126], "pgdown"),
    Sequence([27, 91, 72], "home"), Sequence([27, 91, 70], "end"),
    Sequence([27, 79, 72], "home"), Sequence([27, 79, 70], "end")]

  // ---------- UTF-8, as in Go's unicode/utf8 ----------

  /** How many bytes the encoding starting with b has; 1 also stands for an invalid first byte. */
  function Need(b: byte): (n: nat)
    ensures 1 <= n <= 4
  {
    if 0xC2 <= b <= 0xDF then 2 else if 0xE0 <= b <= 0xEF then 3 else if 0xF0 <= b <= 0xF4 then 4 else 1
  }

  predicate SecondOk(b: byte, c: byte) {
    (if b == 0xE0 then 0xA0 else if b == 0xF0 then 0x90 else 0x80) <= c
    && c <= (if b == 0xED then 0x9F else if b == 0xF4 then 0x8F else 0xBF)
  }

  predicate Continuation(c: byte) { 0x80 <= c <= 0xBF }

  predicate FullRune(d: seq<byte>) {
    d != [] && (|d| >= Need(d[0]) || (|d| > 1 && !SecondOk(d[0], d[1])) || (|d| > 2 && !Continuation(d[2])))
  }

  /** The decoded rune and its size; None is Go's RuneError of size 1. */
  function DecodeRune(d: seq<byte>): (r: Option<(char, nat)>)
    requires d != []
    ensures r.Some? ==> 1 <= r.value.1 <= |d|
  {
    var n, first: int := Need(d[0]), d[0];
    if n == 1 then (if first < 0x80 then Some((first as char, 1)) else None)
    else if |d| < n || !SecondOk(d[0], d[1]) then None
    else
      var second := d[1] as int - 0x80;
      if n == 2 then Some((((first - 0xC0) * 64 + second) as char, 2))
      else if !Continuation(d[2]) then None
      else
        var third := d[2] as int - 0x80;
        if n == 3 then Some((((first - 0xE0) * 4096 + second * 64 + third) as char, 3))
        else if !Continuation(d[3]) then None
        else Some((((first - 0xF0) * 262144 + second * 4096 + third * 64 + (d[3] as int - 0x80)) as char, 4))
  }

  // ---------- CSI-u and modifyOtherKeys ----------

  /** The bytes of an escape sequence read as text. */
  function Latin(d: seq<byte>): (s: string)
    ensures |s| == |d| && forall i :: 0 <= i < |d| ==> s[i] as int == d[i]
  {
    seq(|d|, i requires 0 <= i < |d| => d[i] as char)
  }

  /** `strings.Split` at a one-character separator. */
  function Split(s: string, sep: char): (fields: seq<string>)
    ensures |fields| > 0
  {
    if s == "" then [""]
    else if s[0] == sep then [""] + Split(s[1..], sep)
    else var rest := Split(s[1..], sep); [[s[0]] + rest[0]] + rest[1..]
  }

  /** `strconv.Atoi` on a 64-bit machine; None is its error. */
  function Atoi(s: string): (r: Option<int>) {
    if s != "" && s[0] == '-' then
      (if ValidDigits(s[1..]) && Decimal.Value(s[1..]) <= Decimal.MAX_INT64 + 1
        then Some(-(Decimal.Value(s[1..]) as int)) else None)
    else
      var t := if s != "" && s[0] == '+' then s[1..] else s;
      if ValidDigits(t) && Decimal.Value(t) <= Decimal.MAX_INT64 then Some(Decimal.Value(t)) else None
  }

  predicate ValidDigits(s: string) { s != "" && Decimal.AllDigits(s) }

  /** `leadingNumber`: the number before the first colon. */
  function LeadingNumber(field: string): (r: Option<int>) {
    Atoi(Split(field, ':')[0])
  }

  /** `string(rune(code))`: the conversion keeps the low 32 bits, and an invalid rune becomes U+FFFD. */
  function RuneString(code: int): (r: string) {
    var low := (code + 0x8000_0000) % 0x1_0000_0000 - 0x8000_0000;
    if 0 <= low < 0xD800 || 0xE000 <= low < 0x11_0000 then [low as char] else "\U{FFFD}"
  }

  /** `extendedKeyName`: bit 2 of modifiers - 1 is Ctrl. */
  function ExtendedKeyName(code: int, modifiers: int): (r: string) {
    if modifiers > 0 && (modifiers - 1) / 4 % 2 == 1 then "ctrl+" + Lower(RuneString(code))
    else if code == 9 then "tab" else if code == 13 then "enter" else if code == 27 then "esc"
    else if code == 127 then "backspace" else RuneString(code)
  }

  datatype Extended = NotKey | Incomplete | Keyed(event: Event, size: nat)

  predicate IsFinal(b: byte) { 0x40 <= b <= 0x7E }

  /** The first index at or after i that holds a CSI final byte, or -1. */
  function FirstFinal(d: seq<byte>, i: nat): (k: int)
    requires i <= |d|
    ensures k == -1 || i <= k < |d|
    ensures k >= 0 ==> IsFinal(d[k]) && forall j :: i <= j < k ==> !IsFinal(d[j])
    ensures k == -1 ==> forall j :: i <= j < |d| ==> !IsFinal(d[j])
    decreases |d| - i
  {
    if i == |d| then -1 else if IsFinal(d[i]) then i else FirstFinal(d, i + 1)
  }

  function KeyOf(body: string, final: byte): (r: Option<string>) {
    if final == 117 then
      var fields := Split(body, ';');
      var code := LeadingNumber(fields[0]);
      if code.None? then None
      else
        var parsed := if |fields| > 1 then LeadingNumber(fields[1]) else None;
        Some(ExtendedKeyName(code.value, if parsed.Some? then parsed.value else 1))
    else if final == 126 then
      var fields := Split(body, ';');
      if |fields| == 3 && fields[0] == "27" then
        var modifiers, code := LeadingNumber(fields[1]), LeadingNumber(fields[2]);
        if modifiers.Some? && code.Some? then Some(ExtendedKeyName(code.value, modifiers.value)) else None
      else None
    else None
  }

  function ParseExtended(d: seq<byte>): (r: Extended)
    ensures r.Keyed? ==> 2 < r.size <= |d|
  {
    if !([27, 91] <= d) then NotKey
    else
      var k := FirstFinal(d, 2);
      if k == -1 then Incomplete
      else
        var key := KeyOf(Latin(d[2..k]), d[k]);
        if key.Some? then Keyed(KeyEvent(key.value), k + 1) else NotKey
  }

  // ---------- one round of the decoding loop ----------

  /** What one round does: flush a lone escape and stop, wait for more bytes, or take n bytes. */
  datatype Round = Flush | Wait | Take(events: seq<Event>, n: nat)

  /** The first index at which p occurs in d, or -1. */
  function IndexOf(d: seq<byte>, p: seq<byte>): (k: int)
    ensures k == -1 || 0 <= k <= |d| - |p|
    ensures k >= 0 ==> d[k..k + |p|] == p
  {
    if |d| < |p| then -1
    else if d[..|p|] == p then 0
    else if d == [] then -1
    else var k := IndexOf(d[1..], p); if k == -1 then -1 else k + 1
  }

  /** The first known sequence at or after i that d starts with, or -1. */
  function FindSequence(d: seq<byte>, i: nat): (k: int)
    requires i <= |SEQUENCES|
    ensures k == -1 || (i <= k < |SEQUENCES| && SEQUENCES[k].raw <= d)
    ensures k == -1 ==> forall j :: i <= j < |SEQUENCES| ==> !(SEQUENCES[j].raw <= d)
    decreases |SEQUENCES| - i
  {
    if i == |SEQUENCES| then -1 else if SEQUENCES[i].raw <= d then i else FindSequence(d, i + 1)
  }

  predicate StartsSequence(d: seq<byte>) {
    exists i :: 0 <= i < |SEQUENCES| && d <= SEQUENCES[i].raw
  }

  function ControlKey(b: byte): (r: Option<string>) {
    match b
    case 3 => Some("ctrl+c")
    case 4 => Some("ctrl+d")
    case 13 => Some("enter")
    case 10 => Some("enter")
    case 8 => Some("backspace")
    case 127 => Some("backspace")
    case 9 => Some("tab")
    case 21 => Some("ctrl+u")
    case 32 => Some("space")
    case _ => None
  }

  function EscapeRound(d: seq<byte>): (r: Round)
    requires |d| >= 1 && d[0] == ESC
    ensures r.Take? ==> 0 < r.n <= |d|
    ensures !r.Flush?
  {
    var k := FindSequence(d, 0);
    if k >= 0 then
      assert |SEQUENCES[k].raw| > 0;
      Take([KeyEvent(SEQUENCES[k].key)], |SEQUENCES[k].raw|)
    else if StartsSequence(d) then Wait
    else match ParseExtended(d)
      case Keyed(event, size) => Take([event], size)
      case Incomplete => Wait
      case NotKey => Take([KeyEvent("esc")], 1)
  }

  function OneRound(d: seq<byte>): (r: Round)
    requires d != []
    ensures r.Take? ==> 0 < r.n <= |d|
  {
    if d == [ESC] then Flush
    else if d < PASTE_START then Wait
    else if PASTE_START <= d then
      var end := IndexOf(d[6..], PASTE_END);
      if end < 0 then Wait else Take([Event("", d[6..6 + end])], 6 + end + 6)
    else if d[0] == ESC then EscapeRound(d)
    else if ControlKey(d[0]).Some? then Take([KeyEvent(ControlKey(d[0]).value)], 1)
    else if !FullRune(d) then Wait
    else match DecodeRune(d)
      case Some((c, size)) => Take([KeyEvent([c])], size)
      case None => Take([], 1)
  }

  /** `parseInput`: all the events of d, and the tail that waits for more bytes. */
  function Parse(d: seq<byte>): (r: (seq<Event>, seq<byte>)) {
    if d == [] then ([], [])
    else match OneRound(d)
      case Flush => ([KeyEvent("esc")], [])
      case Wait => ([], d)
      case Take(events, n) => var (more, rest) := Parse(d[n..]); (events + more, rest)
  }

  /** Whether decoding d ends by flushing an escape byte that is the last byte of d. */
  predicate EndsInFlush(d: seq<byte>) {
    d != [] && match OneRound(d)
      case Flush => true
      case Wait => false
      case Take(_, n) => EndsInFlush(d[n..])
  }

  // ---------- more bytes do not change a round that took some ----------

  lemma SequencesPrefixFree(i: nat, j: nat)
    requires i < |SEQUENCES| && j < |SEQUENCES| && SEQUENCES[i].raw <= SEQUENCES[j].raw
    ensures i == j
  {
    assert SEQUENCES[i].raw[2] == SEQUENCES[j].raw[2] && SEQUENCES[i].raw[1] == SEQUENCES[j].raw[1];
  }

  lemma {:induction false} IndexOfStable(d: seq<byte>, b: seq<byte>, p: seq<byte>)
    requires IndexOf(d, p) >= 0
    ensures IndexOf(d + b, p) == IndexOf(d, p)
  {
    assert (d + b)[..|p|] == d[..|p|];
    if d[..|p|] == p {
    } else {
      assert (d + b)[1..] == d[1..] + b;
      IndexOfStable(d[1..], b, p);
    }
  }

  lemma {:induction false} FirstFinalStable(d: seq<byte>, b: seq<byte>, i: nat)
    requires i <= |d| && FirstFinal(d, i) >= 0
    ensures FirstFinal(d + b, i) == FirstFinal(d, i)
    decreases |d| - i
  {
    if IsFinal(d[i]) {
    } else {
      FirstFinalStable(d, b, i + 1);
    }
  }

  lemma ParseExtendedStable(d: seq<byte>, b: seq<byte>)
    requires |d| >= 2 && !ParseExtended(d).Incomplete?
    ensures ParseExtended(d + b) == ParseExtended(d)
  {
    if [27, 91] <= d {
      FirstFinalStable(d, b, 2);
      var k := FirstFinal(d, 2);
      assert (d + b)[2..k] == d[2..k];
    } else {
      assert (d + b)[..2] == d[..2];
    }
  }

  lemma FoundStable(d: seq<byte>, b: seq<byte>)
    requires FindSequence(d, 0) >= 0
    ensures FindSequence(d + b, 0) == FindSequence(d, 0)
  {
    var k, j := FindSequence(d + b, 0), FindSequence(d, 0);
    hide FindSequence, SEQUENCES;
    assert SEQUENCES[j].raw <= d + b;
    PrefixesNest(SEQUENCES[j].raw, SEQUENCES[k].raw, d + b);
    if SEQUENCES[k].raw <= SEQUENCES[j].raw { SequencesPrefixFree(k, j); } else { SequencesPrefixFree(j, k); }
  }

  lemma NotFoundStable(d: seq<byte>, b: seq<byte>)
    requires FindSequence(d, 0) < 0 && !StartsSequence(d)
    ensures FindSequence(d + b, 0) < 0 && !StartsSequence(d + b)
  {
    hide FindSequence, SEQUENCES;
    var k := FindSequence(d + b, 0);
    if k >= 0 { PrefixesNest(d, SEQUENCES[k].raw, d + b); }
    forall i | 0 <= i < |SEQUENCES| ensures d + b <= SEQUENCES[i].raw ==> d <= SEQUENCES[i].raw {
      ShorterPrefix(d, b, SEQUENCES[i].raw);
    }
  }

  lemma FindSequenceStable(d: seq<byte>, b: seq<byte>)
    ensures FindSequence(d, 0) >= 0 ==> FindSequence(d + b, 0) == FindSequence(d, 0)
    ensures FindSequence(d, 0) < 0 && !StartsSequence(d) ==> FindSequence(d + b, 0) < 0 && !StartsSequence(d + b)
  {
    hide FindSequence, StartsSequence;
    if FindSequence(d, 0) >= 0 { FoundStable(d, b); } else if !StartsSequence(d) { NotFoundStable(d, b); }
  }

  lemma ShorterPrefix(d: seq<byte>, b: seq<byte>, p: seq<byte>)
    ensures d + b <= p ==> d <= p
  {
  }

  lemma PrefixesNest(one: seq<byte>, two: seq<byte>, d: seq<byte>)
    requires one <= d && two <= d
    ensures one <= two || two <= one
  {
  }

  lemma EscapeRoundStable(d: seq<byte>, b: seq<byte>)
    requires |d| >= 2 && d[0] == ESC && EscapeRound(d).Take?
    ensures EscapeRound(d + b) == EscapeRound(d)
  {
    FindSequenceStable(d, b);
    if FindSequence(d, 0) < 0 { ParseExtendedStable(d, b); }
  }

  lemma PasteStable(d: seq<byte>, b: seq<byte>)
    requires PASTE_START <= d && IndexOf(d[6..], PASTE_END) >= 0
    ensures PASTE_START <= d + b && IndexOf((d + b)[6..], PASTE_END) == IndexOf(d[6..], PASTE_END)
    ensures var end := IndexOf(d[6..], PASTE_END); (d + b)[6..6 + end] == d[6..6 + end]
  {
    IndexOfStable(d[6..], b, PASTE_END);
    assert (d + b)[6..] == d[6..] + b;
  }

  lemma RuneStable(d: seq<byte>, b: seq<byte>)
    requires d != [] && FullRune(d)
    ensures FullRune(d + b) && DecodeRune(d + b) == DecodeRune(d)
  {
  }

  lemma NoPasteStable(d: seq<byte>, b: seq<byte>)
    requires !(d < PASTE_START) && !(PASTE_START <= d)
    ensures !(d + b < PASTE_START) && !(PASTE_START <= d + b)
  {
    if PASTE_START <= d + b {
      PrefixesNest(d, PASTE_START, d + b);
    } else if d + b <= PASTE_START {
      ShorterPrefix(d, b, PASTE_START);
    }
  }

  lemma RoundStable(d: seq<byte>, b: seq<byte>)
    requires d != [] && OneRound(d).Take?
    ensures OneRound(d + b) == OneRound(d)
  {
    hide IndexOf, EscapeRound, FullRune, DecodeRune, ControlKey;
    if PASTE_START <= d {
      PasteStable(d, b);
    } else {
      NoPasteStable(d, b);
      if d[0] == ESC {
        EscapeRoundStable(d, b);
      } else if ControlKey(d[0]).None? {
        RuneStable(d, b);
      }
    }
  }

  // ---------- the loops of the program ----------

  method ParseExtendedKey(data: seq<byte>) returns (event: Event, consumed: nat, incomplete: bool)
    ensures ParseExtended(data)
      == (if consumed > 0 then Keyed(event, consumed) else if incomplete then Incomplete else NotKey)
  {
    event, consumed, incomplete := KeyEvent(""), 0, false;
    if !([27, 91] <= data) {
      return;
    }
    for i := 2 to |data|
      invariant FirstFinal(data, 2) == FirstFinal(data, i)
    {
      if IsFinal(data[i]) {
        var key := KeyOf(Latin(data[2..i]), data[i]);
        if key.Some? {
          event, consumed := KeyEvent(key.value), i + 1;
        }
        return;
      }
    }
    incomplete := true;
  }

  method ParseInput(input: seq<byte>) returns (events: seq<Event>, rest: seq<byte>)
    ensures (events, rest) == Parse(input)
  {
    var data := input;
    events := [];
    assert [] + Parse(data).0 == Parse(data).0;
    while data != []
      invariant Parse(input) == (events + Parse(data).0, Parse(data).1)
      decreases |data|
    {
      ghost var round := OneRound(data);
      assert round.Take? ==>
        var more := Parse(data[round.n..]).0;
        events + (round.events + more) == (events + round.events) + more;
      assert events + [] == events;
      if data == [ESC] {
        return events + [KeyEvent("esc")], [];
      }
      if data < PASTE_START {
        return events, data;
      }
      if PASTE_START <= data {
        var end := IndexOf(data[6..], PASTE_END);
        if end < 0 {
          return events, data;
        }
        events := events + [Event("", data[6..6 + end])];
        assert round.Take? && round.n == 6 + end + 6;
        data := data[6 + end + 6..];
        continue;
      }
      if data[0] == ESC {
        var matched, prefix := MatchSequence(data);
        if matched >= 0 {
          events := events + [KeyEvent(SEQUENCES[matched].key)];
          assert round == Take([KeyEvent(SEQUENCES[matched].key)], |SEQUENCES[matched].raw|);
          data := data[|SEQUENCES[matched].raw|..];
          continue;
        }
        if prefix {
          return events, data;
        }
        var event, consumed, incomplete := ParseExtendedKey(data);
        if consumed > 0 {
          events := events + [event];
          assert round == Take([event], consumed);
          data := data[consumed..];
          continue;
        } else if incomplete {
          return events, data;
        }
        events := events + [KeyEvent("esc")];
        assert round == Take([KeyEvent("esc")], 1);
        data := data[1..];
        continue;
      }
      var control := ControlKey(data[0]);
      if control.Some? {
        events := events + [KeyEvent(control.value)];
        assert round == Take([KeyEvent(control.value)], 1);
        data := data[1..];
        continue;
      }
      if !FullRune(data) {
        return events, data;
      }
      match DecodeRune(data)
      case None =>
        assert round == Take([], 1);
        data := data[1..];
      case Some((c, size)) =>
        events := events + [KeyEvent([c])];
        assert round == Take([KeyEvent([c])], size);
        data := data[size..];
    }
    assert events + [] == events;
    rest := [];
  }

  lemma FindNext(d: seq<byte>, i: nat)
    requires i < |SEQUENCES|
    ensures FindSequence(d, i) == if SEQUENCES[i].raw <= d then i else FindSequence(d, i + 1)
  {
    hide SEQUENCES;
  }

  lemma FindNone(d: seq<byte>)
    ensures FindSequence(d, |SEQUENCES|) == -1
  {
  }

  method MatchSequence(data: seq<byte>) returns (matched: int, prefix: bool)
    ensures matched == FindSequence(data, 0)
    ensures matched < 0 ==> prefix == StartsSequence(data)
  {
    hide SEQUENCES, FindSequence;
    prefix := false;
    for i := 0 to |SEQUENCES|
      invariant FindSequence(data, 0) == FindSequence(data, i)
      invariant prefix == exists j :: 0 <= j < i && data <= SEQUENCES[j].raw
    {
      FindNext(data, i);
      if data <= SEQUENCES[i].raw {
        prefix := true;
      }
      if SEQUENCES[i].raw <= data {
        return i, prefix;
      }
    }
    FindNone(data);
    matched := -1;
  }
}
