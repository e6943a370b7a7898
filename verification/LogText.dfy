/** Strings and the operation log as text (lib/io.c). The reader's buffer of `size` bytes holds strings shorter
    than `size`; no string contains a NUL. */
module LogText {
  import opened Collections
  import opened Journal

  // ---- writing ----

  predicate NeedsQuotes(s: string) {
    (s != [] && s[0] == '"') || '\n' in s || '\\' in s
  }

  function Escaped(c: char): string {
    if c == '"' || c == '\\' then ['\\', c] else [c]
  }

  /** `s` from position `i` on, escaped. */
  function EscapedFrom(s: string, i: nat): string
    requires i <= |s|
    decreases |s| - i
  {
    if i == |s| then [] else Escaped(s[i]) + EscapedFrom(s, i + 1)
  }

  function Written(s: string): string {
    if NeedsQuotes(s) then "\"" + EscapedFrom(s, 0) + "\"\n" else s + "\n"
  }

  lemma EscapedStep(s: string, i: nat, out: string)
    requires i < |s|
    ensures out + EscapedFrom(s, i) == (out + Escaped(s[i])) + EscapedFrom(s, i + 1)
  {
  }

  /** write_string_quoted */
  method WriteQuoted(s: string) returns (out: string)
    ensures out == "\"" + EscapedFrom(s, 0) + "\"\n"
  {
    out := "\"";
    for i := 0 to |s|
      invariant out + EscapedFrom(s, i) == "\"" + EscapedFrom(s, 0)
    {
      EscapedStep(s, i, out);
      if s[i] == '"' || s[i] == '\\' { out := out + "\\"; }
      out := out + [s[i]];
    }
    out := out + "\"\n";
  }

  /** write_string */
  method WriteString(s: string) returns (out: string)
    ensures out == Written(s)
  {
    if (s != [] && s[0] == '"') || '\n' in s || '\\' in s {
      out := WriteQuoted(s);
    } else {
      out := s + "\n";
    }
  }

  // ---- reading ----

  /** A string read and the position after it. */
  datatype Read = Read(s: string, next: nat)

  function Then(c: char, r: Option<Read>): Option<Read> {
    if r.Some? then Some(Read([c] + r.value.s, r.value.next)) else None
  }

  /** The rest of an unquoted string. */
  function PlainFrom(input: string, at: nat, size: nat): Option<Read>
    requires size > 0
    decreases size
  {
    if at >= |input| then None
    else if input[at] == '\n' then Some(Read([], at + 1))
    else if size == 1 || input[at] == '\0' then None
    else Then(input[at], PlainFrom(input, at + 1, size - 1))
  }

  /** The rest of a quoted string, behind the opening quote. */
  function QuotedFrom(input: string, at: nat, size: nat): Option<Read>
    requires size > 0
    decreases size
  {
    if at >= |input| then None
    else if input[at] == '"' then
      if at + 1 < |input| && input[at + 1] == '\n' then Some(Read([], at + 2)) else None
    else if size == 1 then None
    else
      var from := if input[at] == '\\' then at + 1 else at;
      if from >= |input| || input[from] == '\0' then None
      else Then(input[from], QuotedFrom(input, from + 1, size - 1))
  }

  function StringAt(input: string, at: nat, size: nat): Option<Read>
    requires size > 0
  {
    if at < |input| && input[at] == '"' then QuotedFrom(input, at + 1, size) else PlainFrom(input, at, size)
  }

  function Prefixed(buf: string, r: Option<Read>): Option<Read> {
    if r.Some? then Some(Read(buf + r.value.s, r.value.next)) else None
  }

  lemma PrefixedThen(buf: string, c: char, r: Option<Read>)
    ensures Prefixed(buf + [c], r) == Prefixed(buf, Then(c, r))
  {
    if r.Some? { assert (buf + [c]) + r.value.s == buf + ([c] + r.value.s); }
  }

  lemma PrefixedEnds(buf: string, r: Option<Read>, next: nat)
    ensures Prefixed("", r) == r && Prefixed(buf, Some(Read([], next))) == Some(Read(buf, next))
  {
    if r.Some? { assert "" + r.value.s == r.value.s; }
    assert buf + [] == buf;
  }

  /** read_string_quoted */
  method ReadQuoted(input: string, start: nat, size: nat) returns (r: Option<Read>)
    requires size > 0
    ensures r == QuotedFrom(input, start, size)
  {
    var buf, at: nat, len: nat := "", start, size;
    PrefixedEnds(buf, QuotedFrom(input, at, len), 0);
    while true
      invariant 0 < len <= size && Prefixed(buf, QuotedFrom(input, at, len)) == QuotedFrom(input, start, size)
      decreases len
    {
      if at >= |input| { return None; }
      var c := input[at];
      at := at + 1;
      if c == '"' {
        if at >= |input| || input[at] != '\n' { return None; }
        PrefixedEnds(buf, None, at + 1);
        return Some(Read(buf, at + 1));
      }
      if len == 1 { return None; }
      if c == '\\' {
        if at >= |input| { return None; }
        c := input[at];
        at := at + 1;
      }
      if c == '\0' { return None; }
      PrefixedThen(buf, c, QuotedFrom(input, at, len - 1));
      buf, len := buf + [c], len - 1;
    }
  }

  /** read_string */
  method ReadString(input: string, start: nat, size: nat) returns (r: Option<Read>)
    requires size > 0
    ensures r == StringAt(input, start, size)
  {
    if start >= |input| { return None; }
    if input[start] == '"' {
      r := ReadQuoted(input, start + 1, size);
      return;
    }
    var buf, at: nat, len: nat := "", start, size;
    PrefixedEnds(buf, PlainFrom(input, at, len), 0);
    while true
      invariant 0 < len <= size && at < |input|
      invariant Prefixed(buf, PlainFrom(input, at, len)) == PlainFrom(input, start, size)
      decreases len
    {
      var c := input[at];
      at := at + 1;
      if c == '\n' {
        PrefixedEnds(buf, None, at);
        return Some(Read(buf, at));
      }
      if len == 1 || c == '\0' { return None; }
      PrefixedThen(buf, c, PlainFrom(input, at, len - 1));
      buf, len := buf + [c], len - 1;
      if at >= |input| { return None; }
    }
  }

  // ---- reading back what was written ----

  /** `text` stands in the input at `at`. */
  predicate Stands(input: string, at: nat, text: string) {
    at + |text| <= |input| && input[at..at + |text|] == text
  }

  lemma StandsParts(input: string, at: nat, a: string, b: string)
    ensures Stands(input, at, a + b) <==> Stands(input, at, a) && Stands(input, at + |a|, b)
  {
    if Stands(input, at, a + b) {
      assert input[at..at + |a|] == (a + b)[..|a|];
      assert input[at + |a|..at + |a| + |b|] == (a + b)[|a|..];
    }
    if Stands(input, at, a) && Stands(input, at + |a|, b) {
      assert input[at..at + |a| + |b|] == input[at..at + |a|] + input[at + |a|..at + |a| + |b|];
    }
  }

  predicate Clean(s: string) {
    '\0' !in s
  }

  lemma {:induction false} PlainBack(input: string, at: nat, s: string, size: nat)
    requires size > 0 && Clean(s) && '\n' !in s && Stands(input, at, s + "\n")
    ensures PlainFrom(input, at, size) == if |s| < size then Some(Read(s, at + |s| + 1)) else None
    decreases |s|
  {
    StandsParts(input, at, s, "\n");
    if s != [] {
      assert s == [s[0]] + s[1..];
      assert s + "\n" == [s[0]] + (s[1..] + "\n");
      StandsParts(input, at, [s[0]], s[1..] + "\n");
      assert input[at] == s[0];
      if size > 1 { PlainBack(input, at + 1, s[1..], size - 1); }
    } else {
      assert input[at] == '\n';
    }
  }

  lemma StandsChar(input: string, at: nat, text: string, k: nat)
    requires Stands(input, at, text) && k < |text|
    ensures at + k < |input| && input[at + k] == text[k]
  {
    assert input[at + k] == input[at..at + |text|][k];
  }

  lemma {:induction false} QuotedBack(input: string, at: nat, s: string, i: nat, size: nat)
    requires size > 0 && i <= |s| && Clean(s) && Stands(input, at, EscapedFrom(s, i) + "\"\n")
    ensures QuotedFrom(input, at, size) ==
            if |s| - i < size then Some(Read(s[i..], at + |EscapedFrom(s, i)| + 2)) else None
    decreases |s| - i
  {
    hide Stands;
    if i == |s| {
      StandsParts(input, at, [], "\"\n");
      StandsChar(input, at, "\"\n", 0);
      StandsChar(input, at, "\"\n", 1);
    } else {
      var e, rest := Escaped(s[i]), EscapedFrom(s, i + 1) + "\"\n";
      assert EscapedFrom(s, i) + "\"\n" == e + rest;
      StandsParts(input, at, e, rest);
      StandsChar(input, at, e, 0);
      StandsChar(input, at, e, |e| - 1);
      QuotedStep(input, at, s[i], size);
      assert s[i..] == [s[i]] + s[i + 1..];
      if size > 1 { QuotedBack(input, at + |e|, s, i + 1, size - 1); }
    }
  }

  /** One escaped character is read as itself. */
  lemma QuotedStep(input: string, at: nat, c: char, size: nat)
    requires size > 0 && c != '\0' && at + |Escaped(c)| <= |input|
    requires input[at] == Escaped(c)[0] && input[at + |Escaped(c)| - 1] == c
    ensures QuotedFrom(input, at, size) ==
            if size == 1 then None else Then(c, QuotedFrom(input, at + |Escaped(c)|, size - 1))
  {
  }

  /** Reading inverts writing exactly for the strings that fit the buffer; a longer one is refused. */
  lemma StringBack(input: string, at: nat, s: string, size: nat)
    requires size > 0 && Clean(s) && Stands(input, at, Written(s))
    ensures StringAt(input, at, size) == if |s| < size then Some(Read(s, at + |Written(s)|)) else None
  {
    if NeedsQuotes(s) {
      assert Written(s) == "\"" + (EscapedFrom(s, 0) + "\"\n");
      StandsParts(input, at, "\"", EscapedFrom(s, 0) + "\"\n");
      assert input[at] == input[at..at + 1][0];
      QuotedBack(input, at + 1, s, 0, size);
      assert s[0..] == s;
    } else {
      assert input[at] == input[at..at + |Written(s)|][0] == Written(s)[0];
      PlainBack(input, at, s, size);
    }
  }

  // ---- the forms of the text ----

  predicate Special(c: char) {
    c == '"' || c == '\\'
  }

  predicate Plain(s: string) {
    '\n' !in s && '\\' !in s && (s != [] ==> s[0] != '"')
  }

  /** Text without line ends and backslashes that does not begin with a quote stands as it is. */
  lemma PlainForm(s: string)
    requires Plain(s)
    ensures Written(s) == s + "\n"
  {
  }

  /** Any other text stands between quotes, with one character more for each quote and backslash in it. */
  lemma QuotedForm(s: string)
    requires !Plain(s)
    ensures Written(s)[0] == '"' && |Written(s)| == |s| + multiset(s)['"'] + multiset(s)['\\'] + 3
    ensures Written(s)[|Written(s)| - 2..] == "\"\n"
  {
    EscapedLength(s, 0);
    assert s[0..] == s;
    assert Written(s) == "\"" + EscapedFrom(s, 0) + "\"\n";
  }

  lemma {:induction false} EscapedLength(s: string, i: nat)
    requires i <= |s|
    ensures |EscapedFrom(s, i)| == |s| - i + multiset(s[i..])['"'] + multiset(s[i..])['\\']
    decreases |s| - i
  {
    if i < |s| {
      EscapedLength(s, i + 1);
      assert s[i..] == [s[i]] + s[i + 1..];
    } else {
      assert s[i..] == [];
    }
  }

  /** A character as it stands between quotes: by itself or behind a backslash. */
  datatype Token = Token(escaped: bool, c: char)

  function Render(tokens: seq<Token>): string {
    if tokens == [] then [] else (if tokens[0].escaped then ['\\', tokens[0].c] else [tokens[0].c]) + Render(tokens[1..])
  }

  function Chars(tokens: seq<Token>): string {
    seq(|tokens|, k requires 0 <= k < |tokens| => tokens[k].c)
  }

  /** Quotes and backslashes are escaped, other characters may be, and none is NUL. */
  predicate WellEscaped(tokens: seq<Token>) {
    forall t | t in tokens :: t.c != '\0' && (Special(t.c) ==> t.escaped)
  }

  ghost predicate QuotedStands(input: string, at: nat, tokens: seq<Token>, s: string, next: nat) {
    && WellEscaped(tokens) && Chars(tokens) == s && Stands(input, at, Render(tokens) + "\"\n")
    && next == at + |Render(tokens)| + 2
  }

  lemma FirstToken(t: Token, rest: seq<Token>)
    ensures Chars([t] + rest) == [t.c] + Chars(rest)
    ensures Render([t] + rest) == (if t.escaped then ['\\', t.c] else [t.c]) + Render(rest)
    ensures WellEscaped([t] + rest) <==> WellEscaped(rest) && t.c != '\0' && (Special(t.c) ==> t.escaped)
  {
    assert ([t] + rest)[1..] == rest;
    if WellEscaped([t] + rest) {
      assert ([t] + rest)[0] == t;
      forall u | u in rest ensures u in [t] + rest { }
    }
  }

  /** What is read stood there. */
  lemma {:induction false} QuotedWasThere(input: string, at: nat, size: nat) returns (tokens: seq<Token>)
    requires size > 0 && QuotedFrom(input, at, size).Some?
    ensures var r := QuotedFrom(input, at, size).value; QuotedStands(input, at, tokens, r.s, r.next) && |r.s| < size
    decreases size
  {
    hide QuotedStands;
    if input[at] == '"' {
      tokens := [];
      NoTokens(input, at);
    } else {
      var escaped := input[at] == '\\';
      var from := if escaped then at + 1 else at;
      var rest := QuotedWasThere(input, from + 1, size - 1);
      var r := QuotedFrom(input, from + 1, size - 1).value;
      tokens := [Token(escaped, input[from])] + rest;
      OneMoreToken(input, at, Token(escaped, input[from]), rest, r.s, r.next);
    }
  }

  lemma NoTokens(input: string, at: nat)
    requires at + 1 < |input| && input[at] == '"' && input[at + 1] == '\n'
    ensures QuotedStands(input, at, [], [], at + 2)
  {
    assert input[at..at + 2] == "\"\n";
    assert Render([]) + "\"\n" == "\"\n";
  }

  lemma OneMoreToken(input: string, at: nat, t: Token, rest: seq<Token>, s: string, next: nat)
    requires at + (if t.escaped then 1 else 0) < |input| && (t.escaped ==> input[at] == '\\')
    requires input[at + if t.escaped then 1 else 0] == t.c && t.c != '\0' && (Special(t.c) ==> t.escaped)
    requires QuotedStands(input, at + (if t.escaped then 2 else 1), rest, s, next)
    ensures QuotedStands(input, at, [t] + rest, [t.c] + s, next)
  {
    hide Stands, WellEscaped, Render, Chars;
    FirstToken(t, rest);
    TokenStands(input, at, t);
    var head := if t.escaped then ['\\', t.c] else [t.c];
    StandsParts(input, at, head, Render(rest) + "\"\n");
    assert Render([t] + rest) + "\"\n" == head + (Render(rest) + "\"\n");
  }

  lemma TokenStands(input: string, at: nat, t: Token)
    requires at + (if t.escaped then 1 else 0) < |input| && (t.escaped ==> input[at] == '\\')
    requires input[at + if t.escaped then 1 else 0] == t.c
    ensures Stands(input, at, if t.escaped then ['\\', t.c] else [t.c])
  {
    if t.escaped { assert input[at..at + 2] == ['\\', t.c]; } else { assert input[at..at + 1] == [t.c]; }
  }

  /** What stands there is read, if the buffer is long enough. */
  lemma {:induction false} QuotedIsRead(input: string, at: nat, size: nat, tokens: seq<Token>, s: string, next: nat)
    requires size > 0 && QuotedStands(input, at, tokens, s, next)
    ensures QuotedFrom(input, at, size) == if |s| < size then Some(Read(s, next)) else None
    decreases |tokens|
  {
    hide Stands;
    if tokens == [] {
      assert Render(tokens) + "\"\n" == "\"\n";
      StandsChar(input, at, "\"\n", 0);
      StandsChar(input, at, "\"\n", 1);
    } else {
      var t, rest := tokens[0], tokens[1..];
      assert tokens == [t] + rest;
      FirstToken(t, rest);
      var head := if t.escaped then ['\\', t.c] else [t.c];
      assert Render(tokens) + "\"\n" == head + (Render(rest) + "\"\n");
      StandsParts(input, at, head, Render(rest) + "\"\n");
      StandsChar(input, at, head, 0);
      StandsChar(input, at, head, |head| - 1);
      if size > 1 { QuotedIsRead(input, at + |head|, size - 1, rest, Chars(rest), next); }
    }
  }

  /** Reading a quoted string succeeds exactly where one stands that fits the buffer, whatever else is escaped in it. */
  lemma QuotedMeans(input: string, at: nat, size: nat, s: string, next: nat)
    requires size > 0
    ensures QuotedFrom(input, at, size) == Some(Read(s, next)) <==>
            |s| < size && exists tokens :: QuotedStands(input, at, tokens, s, next)
  {
    hide QuotedFrom, QuotedStands;
    if QuotedFrom(input, at, size) == Some(Read(s, next)) { var tokens := QuotedWasThere(input, at, size); }
    if tokens :| QuotedStands(input, at, tokens, s, next) { QuotedIsRead(input, at, size, tokens, s, next); }
  }

  lemma {:induction false} PlainWasThere(input: string, at: nat, size: nat)
    requires size > 0 && PlainFrom(input, at, size).Some?
    ensures var r := PlainFrom(input, at, size).value;
            |r.s| < size && Clean(r.s) && '\n' !in r.s && Stands(input, at, r.s + "\n") && r.next == at + |r.s| + 1
    decreases size
  {
    var r := PlainFrom(input, at, size).value;
    if input[at] == '\n' {
      assert input[at..at + 1] == "\n" && [] + "\n" == "\n";
    } else {
      PlainWasThere(input, at + 1, size - 1);
      assert r.s == [input[at]] + r.s[1..];
      assert input[at..at + 1] == [input[at]];
      StandsParts(input, at, [input[at]], r.s[1..] + "\n");
      assert r.s + "\n" == [input[at]] + (r.s[1..] + "\n");
    }
  }

  /** And a plain one, where a line stands. */
  lemma PlainMeans(input: string, at: nat, size: nat, s: string, next: nat)
    requires size > 0
    ensures PlainFrom(input, at, size) == Some(Read(s, next)) <==>
            |s| < size && Clean(s) && '\n' !in s && Stands(input, at, s + "\n") && next == at + |s| + 1
  {
    if PlainFrom(input, at, size) == Some(Read(s, next)) { PlainWasThere(input, at, size); }
    if Clean(s) && '\n' !in s && Stands(input, at, s + "\n") { PlainBack(input, at, s, size); }
  }
}
