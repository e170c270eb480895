/** What the menu may rely on when terminal input arrives in arbitrary chunks. */
module TerminalStream {
  import opened Wrappers
  import opened TerminalInput
  import Decimal

  // ---------- the carried-over tail ----------

  /** The tail is a suffix of the input, and decoding it again yields nothing. */
  lemma {:induction false} RestWaits(d: seq<byte>)
    ensures var rest := Parse(d).1;
      |rest| <= |d| && rest == d[|d| - |rest|..] && Parse(rest) == ([], rest) && !EndsInFlush(rest)
    decreases |d|
  {
    if d == [] || !OneRound(d).Take? {
    } else {
      RestWaits(d[OneRound(d).n..]);
    }
  }

  /** Splitting an input in two changes neither its events nor its tail. */
  lemma {:induction false} ParseSplit(a: seq<byte>, b: seq<byte>)
    requires !EndsInFlush(a)
    ensures var (events, rest) := Parse(a);
      Parse(a + b) == (events + Parse(rest + b).0, Parse(rest + b).1)
      && EndsInFlush(a + b) == EndsInFlush(rest + b)
    decreases |a|
  {
    hide OneRound;
    if a == [] || OneRound(a).Wait? {
      assert Parse(a) == ([], a);
      assert [] + Parse(a + b).0 == Parse(a + b).0;
    } else if OneRound(a).Take? {
      RoundStable(a, b);
      var n := OneRound(a).n;
      assert (a + b)[n..] == a[n..] + b;
      ParseTake(a);
      ParseTake(a + b);
      hide Parse, EndsInFlush;
      ParseSplit(a[n..], b);
      var more, last := Parse(a[n..]).0, Parse(Parse(a).1 + b).0;
      assert OneRound(a).events + (more + last) == (OneRound(a).events + more) + last;
    }
  }

  /** What a round that takes some bytes contributes. */
  lemma ParseTake(d: seq<byte>)
    requires d != [] && OneRound(d).Take?
    ensures var (more, rest) := Parse(d[OneRound(d).n..]); Parse(d) == (OneRound(d).events + more, rest)
    ensures EndsInFlush(d) == EndsInFlush(d[OneRound(d).n..])
  {
    hide OneRound;
  }

  lemma BracketAndLetter()
    ensures Parse([91, 65]).0 == [KeyEvent("["), KeyEvent("A")]
  {
    var b: seq<byte> := [91, 65];
    assert b[1..] == [65] && b[1..][1..] == [];
    assert OneRound(b[1..]) == Take([KeyEvent("A")], 1);
    assert OneRound(b) == Take([KeyEvent("[")], 1);
    hide OneRound;
    ParseTake(b);
    ParseTake(b[1..]);
    assert [KeyEvent("A")] + [] == [KeyEvent("A")]
      && [KeyEvent("[")] + [KeyEvent("A")] == [KeyEvent("["), KeyEvent("A")];
  }

  lemma ArrowUp()
    ensures Parse([ESC] + [91, 65]).0 == [KeyEvent("up")]
  {
    var up: seq<byte> := [ESC] + [91, 65];
    assert up == SEQUENCES[0].raw && SEQUENCES[0].key == "up";
    NamedRound(0);
    hide OneRound, SEQUENCES;
    ParseTake(up);
    assert up[3..] == [] && [KeyEvent("up")] + [] == [KeyEvent("up")];
  }

  lemma {:induction false} FlushedEscape(a: seq<byte>)
    requires EndsInFlush(a)
    ensures var b := [91, 65]; var (events, rest) := Parse(a);
      rest == [] && |events| > 0 && |Parse(a + b).0| == |events| && Parse(b).0 == [KeyEvent("["), KeyEvent("A")]
    decreases |a|
  {
    var b: seq<byte> := [91, 65];
    BracketAndLetter();
    if OneRound(a).Flush? {
      assert a == [ESC];
      ArrowUp();
      hide OneRound;
    } else {
      RoundStable(a, b);
      hide OneRound;
      var n := OneRound(a).n;
      assert (a + b)[n..] == a[n..] + b;
      ParseTake(a);
      ParseTake(a + b);
      hide Parse;
      FlushedEscape(a[n..]);
    }
  }

  /** Every continuation of a decodes as if it had arrived together with a. */
  ghost predicate SplitsCleanly(a: seq<byte>) {
    forall b :: Parse(a + b) == (Parse(a).0 + Parse(Parse(a).1 + b).0, Parse(Parse(a).1 + b).1)
  }

  /** The one exception to chunking independence is a chunk that ends with a flushed escape. */
  lemma SplitsCleanlyExactly(a: seq<byte>)
    ensures SplitsCleanly(a) <==> !EndsInFlush(a)
  {
    if EndsInFlush(a) {
      var b: seq<byte> := [91, 65];
      FlushedEscape(a);
      assert Parse(a).1 + b == b;
      assert |Parse(a + b).0| != |Parse(a).0 + Parse(Parse(a).1 + b).0|;
    } else {
      forall b ensures Parse(a + b) == (Parse(a).0 + Parse(Parse(a).1 + b).0, Parse(Parse(a).1 + b).1) {
        ParseSplit(a, b);
      }
    }
  }

  /** A caller can exclude the exception by a look at the last byte. */
  lemma {:induction false} FlushEndsInEscape(d: seq<byte>)
    requires EndsInFlush(d)
    ensures d[|d| - 1] == ESC
    decreases |d|
  {
    if OneRound(d).Flush? {
      assert d == [ESC];
    } else {
      hide OneRound;
      FlushEndsInEscape(d[OneRound(d).n..]);
    }
  }

  // ---------- any number of chunks ----------

  /** The reading loop: every chunk is appended to the pending tail and decoded. */
  function Feed(pending: seq<byte>, chunks: seq<seq<byte>>): (r: (seq<Event>, seq<byte>))
    decreases |chunks|
  {
    if chunks == [] then ([], pending)
    else
      var (events, rest) := Parse(pending + chunks[0]);
      var (more, last) := Feed(rest, chunks[1..]);
      (events + more, last)
  }

  function Flatten(chunks: seq<seq<byte>>): (r: seq<byte>) {
    if chunks == [] then [] else chunks[0] + Flatten(chunks[1..])
  }

  /** No chunk but the last ends with a flushed escape. */
  predicate CutsCleanly(pending: seq<byte>, chunks: seq<seq<byte>>)
    decreases |chunks|
  {
    |chunks| > 1 ==>
      !EndsInFlush(pending + chunks[0]) && CutsCleanly(Parse(pending + chunks[0]).1, chunks[1..])
  }

  lemma {:induction false} FeedIsParse(pending: seq<byte>, chunks: seq<seq<byte>>)
    requires Parse(pending) == ([], pending) && CutsCleanly(pending, chunks)
    ensures Feed(pending, chunks) == Parse(pending + Flatten(chunks))
    decreases |chunks|
  {
    hide OneRound, Parse, EndsInFlush;
    if chunks == [] {
      assert pending + Flatten(chunks) == pending;
    } else {
      var first := pending + chunks[0];
      if |chunks| == 1 {
        assert chunks[1..] == [] && Flatten([]) == [] && chunks[0] + [] == chunks[0];
        assert pending + Flatten(chunks) == first;
        assert Feed(Parse(first).1, []) == ([], Parse(first).1);
        assert Parse(first).0 + [] == Parse(first).0;
      } else {
        RestWaits(first);
        ParseSplit(first, Flatten(chunks[1..]));
        assert pending + Flatten(chunks) == first + Flatten(chunks[1..]);
        FeedIsParse(Parse(first).1, chunks[1..]);
      }
    }
  }

  /** No chunk but the last is empty or ends in an escape byte. */
  predicate NoTrailingEscape(chunks: seq<seq<byte>>) {
    forall i :: 0 <= i < |chunks| - 1 ==> chunks[i] != [] && chunks[i][|chunks[i]| - 1] != ESC
  }

  /** So it is enough to look at the last byte of each chunk. */
  lemma {:induction false} CutsAreClean(pending: seq<byte>, chunks: seq<seq<byte>>)
    requires NoTrailingEscape(chunks)
    ensures CutsCleanly(pending, chunks)
    decreases |chunks|
  {
    if |chunks| <= 1 {
    } else {
      var first := pending + chunks[0];
      if EndsInFlush(first) { FlushEndsInEscape(first); }
      hide Parse, EndsInFlush;
      CutsAreClean(Parse(first).1, chunks[1..]);
    }
  }

  /** Two ways to cut the same stream give the same events and the same tail. */
  lemma ChunkingIndependence(one: seq<seq<byte>>, two: seq<seq<byte>>)
    requires Flatten(one) == Flatten(two) && CutsCleanly([], one) && CutsCleanly([], two)
    ensures Feed([], one) == Feed([], two)
  {
    FeedIsParse([], one);
    FeedIsParse([], two);
  }

  // ---------- printing and parsing ----------

  /** A number with any colon-separated sub-parameters. */
  datatype Parameter = Parameter(n: nat, sub: Option<string>)

  /** The second parameter of a CSI-u sequence, which may be blank, and the ones after it. */
  datatype Modifiers = Absent | Blank(more: seq<string>) | Given(modifiers: Parameter, more: seq<string>)

  /** The forms in which a terminal can send a key or a paste. */
  datatype Token =
    | Named(index: nat)
    | Control(control: byte)
    | Rune(c: char)
    | Pasted(text: seq<byte>)
    | CsiU(code: Parameter, others: Modifiers)
    | OtherKey(code: Parameter, modifiers: Parameter)

  /** A field of digits and colons. */
  predicate IsField(s: string) { forall i :: 0 <= i < |s| ==> '0' <= s[i] <= ':' }

  predicate InRange(p: Parameter) { p.n <= Decimal.MAX_INT64 && (p.sub.Some? ==> IsField(p.sub.value)) }

  predicate AllFields(fields: seq<string>) { forall i :: 0 <= i < |fields| ==> IsField(fields[i]) }

  predicate AllInRange(m: Modifiers) {
    (m.Given? ==> InRange(m.modifiers)) && (!m.Absent? ==> AllFields(m.more))
  }

  function FieldOf(p: Parameter): (s: string)
    requires InRange(p)
    ensures IsField(s) && s != "" && '0' <= s[0] <= '9'
  {
    var digits := Decimal.Digits(p.n);
    assert forall i :: 0 <= i < |digits| ==> Decimal.IsDigit(digits[i]);
    if p.sub.None? then digits else digits + ":" + p.sub.value
  }

  /** All parameters of a CSI-u sequence. */
  function FieldsOf(code: Parameter, others: Modifiers): (fields: seq<string>)
    requires InRange(code) && AllInRange(others)
    ensures AllFields(fields) && fields != [] && fields[0] == FieldOf(code)
  {
    match others
    case Absent => [FieldOf(code)]
    case Blank(more) => [FieldOf(code), ""] + more
    case Given(modifiers, more) => [FieldOf(code), FieldOf(modifiers)] + more
  }

  /** The parameters of the modifyOtherKeys form. */
  function OtherFields(code: Parameter, modifiers: Parameter): (fields: seq<string>)
    requires InRange(code) && InRange(modifiers)
    ensures AllFields(fields)
  {
    ["27", FieldOf(modifiers), FieldOf(code)]
  }

  /** `strings.Join` with semicolons. */
  function Joined(fields: seq<string>): (s: string)
    requires AllFields(fields)
    ensures forall i :: 0 <= i < |s| ==> '0' <= s[i] <= ';'
    ensures fields != [] ==> |fields[0]| <= |s| && s[..|fields[0]|] == fields[0]
  {
    if fields == [] then "" else if |fields| == 1 then fields[0] else fields[0] + ";" + Joined(fields[1..])
  }

  /** A CSI sequence with these parameters. */
  function Sequenced(fields: seq<string>, final: byte): (r: seq<byte>)
    requires AllFields(fields)
  {
    [27, 91] + Ascii(Joined(fields)) + [final]
  }

  predicate Printable(t: Token) {
    match t
    case Named(index) => index < |SEQUENCES|
    case Control(code) => ControlKey(code).Some?
    case Rune(c) => c as int != 27 && (c as int < 128 ==> ControlKey(c as int).None?)
    case Pasted(text) => IndexOf(text, PASTE_END) == -1
    case CsiU(code, others) => InRange(code) && AllInRange(others)
    case OtherKey(code, modifiers) => InRange(code) && InRange(modifiers)
  }

  function Meaning(t: Token): (r: Event)
    requires Printable(t)
  {
    match t
    case Named(index) => KeyEvent(SEQUENCES[index].key)
    case Control(code) => KeyEvent(ControlKey(code).value)
    case Rune(c) => KeyEvent([c])
    case Pasted(text) => Event("", text)
    case CsiU(code, others) => KeyEvent(ExtendedKeyName(code.n, if others.Given? then others.modifiers.n else 1))
    case OtherKey(code, modifiers) => KeyEvent(ExtendedKeyName(code.n, modifiers.n))
  }

  function Ascii(s: string): (d: seq<byte>)
    requires forall i :: 0 <= i < |s| ==> s[i] as int < 128
    ensures |d| == |s| && forall i :: 0 <= i < |s| ==> d[i] == s[i] as int
  {
    seq(|s|, i requires 0 <= i < |s| => s[i] as int)
  }

  function EncodeRune(c: char): (r: seq<byte>) {
    var n := c as int;
    if n < 0x80 then [n]
    else if n < 0x800 then [0xC0 + n / 64, 0x80 + n % 64]
    else if n < 0x1_0000 then [0xE0 + n / 4096, 0x80 + n / 64 % 64, 0x80 + n % 64]
    else [0xF0 + n / 262144, 0x80 + n / 4096 % 64, 0x80 + n / 64 % 64, 0x80 + n % 64]
  }

  function Print(t: Token): (r: seq<byte>)
    requires Printable(t)
  {
    match t
    case Named(index) => SEQUENCES[index].raw
    case Control(code) => [code]
    case Rune(c) => EncodeRune(c)
    case Pasted(text) => PASTE_START + text + PASTE_END
    case CsiU(code, others) => Sequenced(FieldsOf(code, others), 117)
    case OtherKey(code, modifiers) => Sequenced(OtherFields(code, modifiers), 126)
  }

  lemma TwiceBy64(n: nat)
    ensures n / 64 / 64 == n / 4096
  {
    var q := n / 64;
    assert n == 4096 * (q / 64) + (64 * (q % 64) + n % 64);
  }

  lemma Digits64(n: nat)
    ensures n == n / 4096 * 4096 + n / 64 % 64 * 64 + n % 64
    ensures n == n / 262144 * 262144 + n / 4096 % 64 * 4096 + n / 64 % 64 * 64 + n % 64
  {
    TwiceBy64(n);
    var q := n / 4096;
    assert n == 262144 * (q / 64) + (4096 * (q % 64) + n % 4096);
    assert n / 262144 == q / 64;
  }

  lemma EncodeDecode(c: char)
    ensures var d := EncodeRune(c);
      DecodeRune(d) == Some((c, |d|)) && FullRune(d) && (c as int >= 128 ==> d[0] >= 0xC2)
  {
    var n := c as int;
    var d := EncodeRune(c);
    if n >= 0x1_0000 {
      Digits64(n);
      assert |d| == 4 && Need(d[0]) == 4 && SecondOk(d[0], d[1]);
    } else if n >= 0x800 {
      Digits64(n);
      assert |d| == 3 && Need(d[0]) == 3 && SecondOk(d[0], d[1]);
    } else if n >= 0x80 {
      assert |d| == 2 && Need(d[0]) == 2 && SecondOk(d[0], d[1]);
    }
  }

  /** A marker with its only escape byte in front occurs nowhere earlier. */
  lemma {:induction false} IndexOfMarker(text: seq<byte>)
    requires IndexOf(text, PASTE_END) == -1
    ensures IndexOf(text + PASTE_END, PASTE_END) == |text|
  {
    var d := text + PASTE_END;
    if text == [] {
      assert d[..6] == PASTE_END;
    } else {
      MarkerIsNotHere(text);
      assert d[1..] == text[1..] + PASTE_END;
      assert IndexOf(text[1..], PASTE_END) == -1;
      IndexOfMarker(text[1..]);
    }
  }

  lemma MarkerIsNotHere(text: seq<byte>)
    requires text != [] && IndexOf(text, PASTE_END) == -1
    ensures (text + PASTE_END)[..6] != PASTE_END
  {
    var d := text + PASTE_END;
    assert |text| >= 6 ==> text[..6] != PASTE_END;
    hide IndexOf;
    assert d[|text|] == 27 && (|text| >= 6 ==> d[..6] == text[..6]);
    if |text| < 6 { assert d[..6][|text|] == 27; }
  }

  lemma {:induction false} SplitPlain(s: string, sep: char)
    requires sep !in s
    ensures Split(s, sep) == [s]
  {
    if s == "" {
    } else {
      SplitPlain(s[1..], sep);
      assert s == [s[0]] + s[1..];
    }
  }

  lemma {:induction false} SplitFirst(s: string, sep: char, t: string)
    requires sep !in s
    ensures Split(s + [sep] + t, sep) == [s] + Split(t, sep)
  {
    var all := s + [sep] + t;
    if s == "" {
      assert all[1..] == t;
    } else {
      assert all[1..] == s[1..] + [sep] + t;
      SplitFirst(s[1..], sep, t);
      assert Split(all, sep) == [[s[0]] + s[1..]] + Split(t, sep);
      assert s == [s[0]] + s[1..];
    }
  }

  /** Splitting gives back the fields that were joined. */
  lemma {:induction false} SplitJoined(fields: seq<string>)
    requires fields != [] && AllFields(fields)
    ensures Split(Joined(fields), ';') == fields
  {
    assert ';' !in fields[0];
    if |fields| == 1 {
      SplitPlain(fields[0], ';');
      assert fields == [fields[0]];
    } else {
      SplitFirst(fields[0], ';', Joined(fields[1..]));
      SplitJoined(fields[1..]);
      assert fields == [fields[0]] + fields[1..];
    }
  }

  lemma NumberReads(p: Parameter)
    requires InRange(p)
    ensures LeadingNumber(FieldOf(p)) == Some(p.n)
  {
    var digits := Decimal.Digits(p.n);
    assert ':' !in digits;
    if p.sub.None? { SplitPlain(digits, ':'); } else { SplitFirst(digits, ':', p.sub.value); }
    Decimal.ValueOfDigits(p.n);
  }

  lemma FirstFinalAtEnd(d: seq<byte>)
    requires |d| > 2 && IsFinal(d[|d| - 1]) && forall i :: 2 <= i < |d| - 1 ==> !IsFinal(d[i])
    ensures FirstFinal(d, 2) == |d| - 1
  {
  }

  /** The printed parameters are found between the introducer and the final byte. */
  lemma BodyReads(fields: seq<string>, final: byte)
    requires AllFields(fields) && IsFinal(final) && Joined(fields) != ""
    ensures var d := Sequenced(fields, final);
      FirstFinal(d, 2) == |d| - 1 && Latin(d[2..|d| - 1]) == Joined(fields) && d[|d| - 1] == final && [27, 91] <= d
  {
    hide Joined, FirstFinal;
    var d := Sequenced(fields, final);
    FirstFinalAtEnd(d);
    assert d[2..|d| - 1] == Ascii(Joined(fields));
  }

  lemma KeyReads(fields: seq<string>, final: byte, key: string)
    requires AllFields(fields) && IsFinal(final) && Joined(fields) != "" && KeyOf(Joined(fields), final) == Some(key)
    ensures var d := Sequenced(fields, final); ParseExtended(d) == Keyed(KeyEvent(key), |d|)
  {
    BodyReads(fields, final);
    hide Joined, FirstFinal, KeyOf, Sequenced, Latin;
  }

  lemma CsiUReads(code: Parameter, others: Modifiers)
    requires Printable(CsiU(code, others))
    ensures var d := Print(CsiU(code, others)); ParseExtended(d) == Keyed(Meaning(CsiU(code, others)), |d|)
  {
    var fields := FieldsOf(code, others);
    var key := ExtendedKeyName(code.n, if others.Given? then others.modifiers.n else 1);
    hide ExtendedKeyName;
    SplitJoined(fields);
    NumberReads(code);
    if others.Given? { NumberReads(others.modifiers); }
    assert LeadingNumber("").None?;
    hide Split, LeadingNumber, FieldOf, Joined;
    assert KeyOf(Joined(fields), 117) == Some(key);
    hide FieldsOf, KeyOf, ParseExtended, Sequenced;
    KeyReads(fields, 117, key);
  }

  lemma OtherKeyReads(code: Parameter, modifiers: Parameter)
    requires Printable(OtherKey(code, modifiers))
    ensures var d := Print(OtherKey(code, modifiers));
      ParseExtended(d) == Keyed(Meaning(OtherKey(code, modifiers)), |d|)
  {
    var fields := OtherFields(code, modifiers);
    var key := ExtendedKeyName(code.n, modifiers.n);
    hide ExtendedKeyName;
    SplitJoined(fields);
    NumberReads(code);
    NumberReads(modifiers);
    assert fields[0] == "27";
    hide Split, LeadingNumber, FieldOf, Joined;
    assert KeyOf(Joined(fields), 126) == Some(key);
    hide OtherFields, KeyOf, ParseExtended, Sequenced;
    assert Joined(fields)[..2] == "27";
    KeyReads(fields, 126, key);
  }

  lemma NamedRound(index: nat)
    requires index < |SEQUENCES|
    ensures OneRound(SEQUENCES[index].raw) == Take([KeyEvent(SEQUENCES[index].key)], |SEQUENCES[index].raw|)
  {
    var d := SEQUENCES[index].raw;
    var k := FindSequence(d, 0);
    SequencesPrefixFree(k, index);
    assert d[0] == ESC && d[2] != 50;
  }

  lemma RuneRound(c: char)
    requires Printable(Rune(c))
    ensures OneRound(EncodeRune(c)) == Take([KeyEvent([c])], |EncodeRune(c)|)
  {
    var d := EncodeRune(c);
    EncodeDecode(c);
    hide FullRune, DecodeRune;
    assert d[0] != ESC && ControlKey(d[0]).None?;
  }

  lemma PastedRound(text: seq<byte>)
    requires Printable(Pasted(text))
    ensures var d := Print(Pasted(text)); OneRound(d) == Take([Event("", text)], |d|)
  {
    var d := Print(Pasted(text));
    IndexOfMarker(text);
    assert d[6..] == text + PASTE_END && d[6..6 + |text|] == text && d[..6] == PASTE_START;
  }

  /** A CSI sequence of digits, colons and semicolons that ends like a key. */
  predicate IsKeySequence(d: seq<byte>) {
    |d| >= 4 && d[..2] == [27, 91] && 48 <= d[2] <= 57 && (forall i :: 2 <= i < |d| - 1 ==> 48 <= d[i] <= 59)
    && (d[|d| - 1] == 117 || (d[|d| - 1] == 126 && |d| >= 6 && d[3] == 55))
  }

  /** It is none of the fixed sequences and begins no paste. */
  lemma NotPaste(d: seq<byte>)
    requires IsKeySequence(d)
    ensures !(d < PASTE_START) && !(PASTE_START <= d) && d != [ESC] && d[0] == ESC
  {
    assert d[0] == 27;
    ShortOfPaste(d);
    BeginsPaste(d);
  }

  lemma ShortOfPaste(d: seq<byte>)
    ensures 4 <= |d| && d < PASTE_START ==> d[|d| - 1] == 48
  {
    assert PASTE_START[3] == 48 && PASTE_START[4] == 48;
  }

  lemma BeginsPaste(d: seq<byte>)
    ensures PASTE_START <= d ==> |d| >= 6 && d[3] == 48 && d[5] == 126
  {
    assert PASTE_START[3] == 48 && PASTE_START[5] == 126;
  }

  lemma NotNamed(d: seq<byte>, i: nat)
    requires IsKeySequence(d) && i < |SEQUENCES|
    ensures !(SEQUENCES[i].raw <= d) && !(d <= SEQUENCES[i].raw)
  {
    var raw := SEQUENCES[i].raw;
    assert |raw| <= 4 && (|raw| == 4 ==> raw[3] == 126) && (|raw| == 3 ==> raw[2] >= 65);
  }

  lemma ExtendedRound(d: seq<byte>, event: Event)
    requires IsKeySequence(d) && ParseExtended(d) == Keyed(event, |d|)
    ensures OneRound(d) == Take([event], |d|)
  {
    NotPaste(d);
    hide ParseExtended, SEQUENCES, FindSequence;
    forall i | 0 <= i < |SEQUENCES| ensures !(SEQUENCES[i].raw <= d) && !(d <= SEQUENCES[i].raw) { NotNamed(d, i); }
    hide IsKeySequence;
  }

  lemma SequencedIsKey(fields: seq<string>, final: byte)
    requires AllFields(fields) && var s := Joined(fields);
      s != "" && '0' <= s[0] <= '9' && (final == 117 || (final == 126 && |s| >= 3 && s[1] == '7'))
    ensures IsKeySequence(Sequenced(fields, final))
  {
    var s, d := Ascii(Joined(fields)), Sequenced(fields, final);
    hide Joined;
    assert d[..2] == [27, 91] && |d| == |s| + 3 && d[|d| - 1] == final;
    assert forall i :: 2 <= i < |d| - 1 ==> d[i] == s[i - 2];
  }

  lemma CsiURound(code: Parameter, others: Modifiers)
    requires Printable(CsiU(code, others))
    ensures var d := Print(CsiU(code, others)); OneRound(d) == Take([Meaning(CsiU(code, others))], |d|)
  {
    CsiUReads(code, others);
    hide OneRound, ParseExtended, Meaning, FieldOf, Joined, FieldsOf, IsKeySequence, Sequenced;
    var fields := FieldsOf(code, others);
    assert Joined(fields)[0] == fields[0][0];
    SequencedIsKey(fields, 117);
    ExtendedRound(Print(CsiU(code, others)), Meaning(CsiU(code, others)));
  }

  lemma OtherKeyRound(code: Parameter, modifiers: Parameter)
    requires Printable(OtherKey(code, modifiers))
    ensures var d := Print(OtherKey(code, modifiers)); OneRound(d) == Take([Meaning(OtherKey(code, modifiers))], |d|)
  {
    OtherKeyReads(code, modifiers);
    var fields := OtherFields(code, modifiers);
    hide OneRound, ParseExtended, Meaning, FieldOf, IsKeySequence, Sequenced;
    assert |Joined(fields)| >= 4;
    assert fields[0] == "27";
    hide Joined, OtherFields;
    var s := Joined(fields);
    assert s[..2] == "27" && s[0] == '2' && s[1] == '7';
    SequencedIsKey(fields, 126);
    ExtendedRound(Print(OtherKey(code, modifiers)), Meaning(OtherKey(code, modifiers)));
  }

  lemma TokenRound(t: Token)
    requires Printable(t)
    ensures OneRound(Print(t)) == Take([Meaning(t)], |Print(t)|)
  {
    hide OneRound, ParseExtended, ExtendedKeyName, SEQUENCES;
    match t
    case Named(index) => NamedRound(index);
    case Control(code) => ControlRound(code);
    case Rune(c) => RuneRound(c);
    case Pasted(text) => PastedRound(text);
    case CsiU(code, others) => CsiURound(code, others);
    case OtherKey(code, modifiers) => OtherKeyRound(code, modifiers);
  }

  lemma ControlRound(code: byte)
    requires ControlKey(code).Some?
    ensures OneRound([code]) == Take([KeyEvent(ControlKey(code).value)], 1)
  {
  }

  predicate AllPrintable(tokens: seq<Token>) {
    forall i :: 0 <= i < |tokens| ==> Printable(tokens[i])
  }

  function PrintAll(tokens: seq<Token>): (r: seq<byte>)
    requires AllPrintable(tokens)
  {
    if tokens == [] then [] else Print(tokens[0]) + PrintAll(tokens[1..])
  }

  function Meanings(tokens: seq<Token>): (r: seq<Event>)
    requires AllPrintable(tokens)
  {
    seq(|tokens|, i requires 0 <= i < |tokens| => Meaning(tokens[i]))
  }

  lemma PrintsSomething(t: Token)
    requires Printable(t)
    ensures Print(t) != []
  {
  }

  /** One whole event in front of others. */
  lemma EventFirst(first: seq<byte>, event: Event, others: seq<byte>)
    requires first != [] && OneRound(first) == Take([event], |first|)
    ensures Parse(first + others) == ([event] + Parse(others).0, Parse(others).1)
    ensures EndsInFlush(first + others) == EndsInFlush(others)
  {
    RoundStable(first, others);
    hide OneRound;
    assert (first + others)[|first|..] == others;
    ParseTake(first + others);
  }

  /** Whatever keys and pastes are sent, in whichever form, exactly those are decoded. */
  lemma {:induction false} PrintParse(tokens: seq<Token>)
    requires AllPrintable(tokens)
    ensures Parse(PrintAll(tokens)) == (Meanings(tokens), []) && !EndsInFlush(PrintAll(tokens))
  {
    if tokens == [] {
      assert Meanings(tokens) == [];
    } else {
      hide OneRound, Meaning, Print, Parse, EndsInFlush;
      PrintsSomething(tokens[0]);
      TokenRound(tokens[0]);
      EventFirst(Print(tokens[0]), Meaning(tokens[0]), PrintAll(tokens[1..]));
      PrintParse(tokens[1..]);
      hide Printable;
      assert Meanings(tokens) == [Meaning(tokens[0])] + Meanings(tokens[1..]);
    }
  }
}
