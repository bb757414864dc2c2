/** The quoting functions of the agent and the worker, and the readers that undo them:
    a POSIX shell, the admin tool's env-file reader and the OpenVPN line splitter. */
module Quoting {
  import opened Common
  import opened Text

  // ---------------------------------------------------------------- quoting functions

  /** `strings.ReplaceAll` for a one-character pattern. */
  function ReplaceAll(s: string, c: char, rep: string): string {
    if s == "" then "" else (if s[0] == c then rep else [s[0]]) + ReplaceAll(s[1..], c, rep)
  }

  /** The agent's `shellQuote`: an apostrophe becomes `'"'"'`. */
  function AgentShellQuote(s: string): string {
    "'" + ReplaceAll(s, '\'', "'\"'\"'") + "'"
  }

  /** The worker's `shellQuote`: an apostrophe becomes `'\''`. */
  function WorkerShellQuote(s: string): string {
    "'" + ReplaceAll(s, '\'', "'\\''") + "'"
  }

  /** `nftQuote`: two replacements, one after the other. */
  function NftQuote(s: string): string {
    "\"" + ReplaceAll(ReplaceAll(s, '\\', "\\\\"), '"', "\\\"") + "\""
  }

  /** The simultaneous replacement made by `strings.NewReplacer`. */
  function EscapeBoth(s: string): string {
    if s == "" then ""
    else (if s[0] == '\\' || s[0] == '"' then ['\\', s[0]] else [s[0]]) + EscapeBoth(s[1..])
  }

  /** `quoteExternalEgressSecret` */
  function SecretQuote(s: string): string {
    "\"" + EscapeBoth(s) + "\""
  }

  // ---------------------------------------------------------------- POSIX shell words

  datatype Mode = Bare | Single | Double

  /** Characters that end a word, start an operator or expansion, or may be a pattern when unquoted
      (section 2.2 of the POSIX.1-2017 Shell Command Language). */
  predicate NeedsQuoting(c: char) {
    c in "|&;<>()$` \t\n*?[#~=%"
  }

  /** Quote removal over the rest of a word, following section 2.2; `None` when the text is not one
      fully quoted or literal word. */
  function ReadWord(s: string, mode: Mode): Option<string> {
    if s == "" then
      if mode == Bare then Some("") else None
    else
      var c, rest := s[0], s[1..];
      match mode
      case Bare =>
        if c == '\'' then ReadWord(rest, Single)
        else if c == '"' then ReadWord(rest, Double)
        else if c == '\\' then
          if rest == "" then None
          else if rest[0] == '\n' then ReadWord(rest[1..], Bare)
          else Push(rest[0], ReadWord(rest[1..], Bare))
        else if NeedsQuoting(c) then None
        else Push(c, ReadWord(rest, Bare))
      case Single =>
        if c == '\'' then ReadWord(rest, Bare) else Push(c, ReadWord(rest, Single))
      case Double =>
        if c == '"' then ReadWord(rest, Bare)
        else if c == '$' || c == '`' then None
        else if c == '\\' && rest != "" && rest[0] == '\n' then ReadWord(rest[1..], Double)
        else if c == '\\' && rest != "" && rest[0] in "$`\"\\" then Push(rest[0], ReadWord(rest[1..], Double))
        else Push(c, ReadWord(rest, Double))
  }

  function Push(c: char, tail: Option<string>): Option<string> {
    if tail.Some? then Some([c] + tail.value) else None
  }

  /** The value of a text that is exactly one shell word. */
  function ShellWord(s: string): Option<string> {
    if s == "" then None else ReadWord(s, Bare)
  }

  lemma {:induction false} AgentQuoteTail(s: string)
    ensures ReadWord(ReplaceAll(s, '\'', "'\"'\"'") + "'", Single) == Some(s)
  {
    var body := ReplaceAll(s, '\'', "'\"'\"'") + "'";
    if s == "" {
      assert body == "'";
    } else {
      var tail := ReplaceAll(s[1..], '\'', "'\"'\"'") + "'";
      AgentQuoteTail(s[1..]);
      assert s == [s[0]] + s[1..];
      if s[0] == '\'' {
        assert body == ['\'', '"', '\'', '"', '\''] + tail;
        assert body[1..] == ['"', '\'', '"', '\''] + tail;
        assert body[1..][1..] == ['\'', '"', '\''] + tail;
        assert body[1..][1..][1..] == ['"', '\''] + tail;
        assert body[1..][1..][1..][1..] == ['\''] + tail;
        assert body[1..][1..][1..][1..][1..] == tail;
        assert ReadWord(['\''] + tail, Bare) == Some(s[1..]);
        assert ReadWord(['"', '\''] + tail, Double) == Some(s[1..]);
        assert ReadWord(['\'', '"', '\''] + tail, Double) == Some(s);
      } else {
        assert body == [s[0]] + tail;
        assert body[1..] == tail;
      }
    }
  }

  lemma {:induction false} WorkerQuoteTail(s: string)
    ensures ReadWord(ReplaceAll(s, '\'', "'\\''") + "'", Single) == Some(s)
  {
    var body := ReplaceAll(s, '\'', "'\\''") + "'";
    if s == "" {
      assert body == "'";
    } else {
      var tail := ReplaceAll(s[1..], '\'', "'\\''") + "'";
      WorkerQuoteTail(s[1..]);
      assert s == [s[0]] + s[1..];
      if s[0] == '\'' {
        assert body == ['\'', '\\', '\'', '\''] + tail;
        assert body[1..] == ['\\', '\'', '\''] + tail;
        assert body[1..][1..] == ['\'', '\''] + tail;
        assert body[1..][1..][1..] == ['\''] + tail;
        assert body[1..][1..][1..][1..] == tail;
        assert ReadWord(['\''] + tail, Bare) == Some(s[1..]);
      } else {
        assert body == [s[0]] + tail;
        assert body[1..] == tail;
      }
    }
  }

  /** Both quoting functions turn any text into exactly one shell word with that value. */
  lemma ShellQuotesAreOneWord(s: string)
    ensures ShellWord(AgentShellQuote(s)) == Some(s)
    ensures ShellWord(WorkerShellQuote(s)) == Some(s)
  {
    AgentQuoteTail(s);
    WorkerQuoteTail(s);
    assert AgentShellQuote(s) == ['\''] + (ReplaceAll(s, '\'', "'\"'\"'") + "'");
    assert WorkerShellQuote(s) == ['\''] + (ReplaceAll(s, '\'', "'\\''") + "'");
  }

  // ---------------------------------------------------------------- the admin env-file value reader

  /** The reader's meaning from position `i`, with `out` already written. */
  function AdminRead(v: string, i: nat, mode: Mode, out: string): Result<string>
    requires i <= |v|
    decreases |v| - i
  {
    match mode
    case Bare =>
      if i == |v| then Ok(TrimSpace(out))
      else if v[i] == '\'' then AdminRead(v, i + 1, Single, out)
      else if v[i] == '"' then AdminRead(v, i + 1, Double, out)
      else if v[i] == '\\' then
        if i + 1 == |v| then Err("dangling escape in value") else AdminRead(v, i + 2, Bare, out + [v[i + 1]])
      else if v[i] == '#' && (TrimSpace(v[..i]) == "" || (i > 0 && (v[i - 1] == ' ' || v[i - 1] == '\t'))) then
        Ok(TrimSpace(out))
      else AdminRead(v, i + 1, Bare, out + [v[i]])
    case Single =>
      if i == |v| then Err("unterminated single-quoted value")
      else if v[i] == '\'' then AdminRead(v, i + 1, Bare, out)
      else AdminRead(v, i + 1, Single, out + [v[i]])
    case Double =>
      if i == |v| then Err("unterminated double-quoted value")
      else if v[i] == '"' then AdminRead(v, i + 1, Bare, out)
      else if v[i] == '\\' && i + 1 < |v| then AdminRead(v, i + 2, Double, out + [v[i + 1]])
      else AdminRead(v, i + 1, Double, out + [v[i]])
  }

  function AdminValue(raw: string): Result<string> {
    AdminRead(TrimSpace(raw), 0, Bare, "")
  }

  /** `parseAdminEnvValue`, with its index and nested loops. */
  method ParseAdminEnvValue(raw: string) returns (r: Result<string>)
    ensures r == AdminValue(raw)
  {
    var value := TrimSpace(raw);
    var out := "";
    var i := 0;
    while i < |value|
      invariant 0 <= i <= |value|
      invariant AdminRead(value, i, Bare, out) == AdminValue(raw)
    {
      if value[i] == '\'' {
        i := i + 1;
        var start := i;
        assert out + value[start..i] == out;
        while i < |value| && value[i] != '\''
          invariant start <= i <= |value|
          invariant AdminRead(value, i, Single, out + value[start..i]) == AdminValue(raw)
        {
          assert out + value[start..i + 1] == out + value[start..i] + [value[i]];
          i := i + 1;
        }
        if i >= |value| {
          return Err("unterminated single-quoted value");
        }
        out := out + value[start..i];
        i := i + 1;
      } else if value[i] == '"' {
        i := i + 1;
        while i < |value| && value[i] != '"'
          invariant i <= |value|
          invariant AdminRead(value, i, Double, out) == AdminValue(raw)
        {
          if value[i] == '\\' && i + 1 < |value| {
            i := i + 1;
          }
          out := out + [value[i]];
          i := i + 1;
        }
        if i >= |value| {
          return Err("unterminated double-quoted value");
        }
        i := i + 1;
      } else if value[i] == '\\' {
        if i + 1 >= |value| {
          return Err("dangling escape in value");
        }
        i := i + 1;
        out := out + [value[i]];
        i := i + 1;
      } else if value[i] == '#' {
        if TrimSpace(value[..i]) == "" || value[i - 1] == ' ' || value[i - 1] == '\t' {
          return Ok(TrimSpace(out));
        }
        out := out + [value[i]];
        i := i + 1;
      } else {
        out := out + [value[i]];
        i := i + 1;
      }
    }
    return Ok(TrimSpace(out));
  }

  lemma {:induction false} AdminReadsAgentTail(v: string, i: nat, s: string, out: string)
    requires i <= |v| && v[i..] == ReplaceAll(s, '\'', "'\"'\"'") + "'"
    ensures AdminRead(v, i, Single, out) == Ok(TrimSpace(out + s))
    decreases |s|
  {
    var body := v[i..];
    if s == "" {
      assert body == "'" && v[i] == body[0];
      assert out + s == out;
    } else {
      var tail := ReplaceAll(s[1..], '\'', "'\"'\"'") + "'";
      assert out + [s[0]] + s[1..] == out + s;
      if s[0] == '\'' {
        assert body == ['\'', '"', '\'', '"', '\''] + tail;
        assert v[i] == body[0] && v[i + 1] == body[1] && v[i + 2] == body[2] && v[i + 3] == body[3]
            && v[i + 4] == body[4];
        assert v[i + 5..] == body[5..] == tail;
        AdminReadsAgentTail(v, i + 5, s[1..], out + [s[0]]);
        assert AdminRead(v, i + 2, Double, out) == AdminRead(v, i + 3, Double, out + ['\'']);
        assert AdminRead(v, i + 3, Double, out + ['\'']) == AdminRead(v, i + 5, Single, out + ['\'']);
      } else {
        assert body == [s[0]] + tail;
        assert v[i] == body[0];
        assert v[i + 1..] == body[1..] == tail;
        AdminReadsAgentTail(v, i + 1, s[1..], out + [s[0]]);
      }
    }
  }

  lemma {:induction false} AdminReadsWorkerTail(v: string, i: nat, s: string, out: string)
    requires i <= |v| && v[i..] == ReplaceAll(s, '\'', "'\\''") + "'"
    ensures AdminRead(v, i, Single, out) == Ok(TrimSpace(out + s))
    decreases |s|
  {
    var body := v[i..];
    if s == "" {
      assert body == "'" && v[i] == body[0];
      assert out + s == out;
    } else {
      var tail := ReplaceAll(s[1..], '\'', "'\\''") + "'";
      assert out + [s[0]] + s[1..] == out + s;
      if s[0] == '\'' {
        assert body == ['\'', '\\', '\'', '\''] + tail;
        assert v[i] == body[0] && v[i + 1] == body[1] && v[i + 2] == body[2] && v[i + 3] == body[3];
        assert v[i + 4..] == body[4..] == tail;
        AdminReadsWorkerTail(v, i + 4, s[1..], out + [s[0]]);
        assert AdminRead(v, i + 1, Bare, out) == AdminRead(v, i + 3, Bare, out + ['\'']);
      } else {
        assert body == [s[0]] + tail;
        assert v[i] == body[0];
        assert v[i + 1..] == body[1..] == tail;
        AdminReadsWorkerTail(v, i + 1, s[1..], out + [s[0]]);
      }
    }
  }

  /** The admin tool reads back what either binary quoted, up to surrounding white space. */
  lemma AdminReadsShellQuotes(s: string)
    ensures AdminValue(AgentShellQuote(s)) == Ok(TrimSpace(s))
    ensures AdminValue(WorkerShellQuote(s)) == Ok(TrimSpace(s))
  {
    var a, w := AgentShellQuote(s), WorkerShellQuote(s);
    TrimIdentity(a, IsSpace);
    TrimIdentity(w, IsSpace);
    assert "" + s == s;
    assert a[1..] == ReplaceAll(s, '\'', "'\"'\"'") + "'";
    AdminReadsAgentTail(a, 1, s, "");
    assert w[1..] == ReplaceAll(s, '\'', "'\\''") + "'";
    AdminReadsWorkerTail(w, 1, s, "");
  }

  // ---------------------------------------------------------------- bare values and comments

  predicate Blank(c: char) {
    c == ' ' || c == '\t'
  }

  /** A comment starts at a `#` that comes first or directly behind a blank. */
  predicate CommentAt(v: string, i: nat)
    requires i < |v|
  {
    v[i] == '#' && (i == 0 || Blank(v[i - 1]))
  }

  predicate Ordinary(s: string) {
    forall i :: 0 <= i < |s| ==> s[i] != '\'' && s[i] != '"' && s[i] != '\\'
  }

  lemma {:induction false} AdminReadsBareTail(v: string, i: nat, n: nat)
    requires i <= n <= |v| && Ordinary(v[..n]) && (v != "" ==> !IsSpace(v[0]))
    requires n < |v| ==> CommentAt(v, n)
    requires forall j :: 0 <= j < n ==> !CommentAt(v, j)
    ensures AdminRead(v, i, Bare, v[..i]) == Ok(TrimSpace(v[..n]))
    decreases n - i
  {
    if 0 < i < |v| {
      TrimmedHead(v[..i]);
    }
    assert v[..0] == "" && TrimSpace("") == "";
    if i == n < |v| {
      assert i == 0 ==> TrimSpace(v[..i]) == "";
    } else if i < n {
      assert !CommentAt(v, i);
      assert v[i] == v[..n][i] && v[..i] + [v[i]] == v[..i + 1];
      AdminReadsBareTail(v, i + 1, n);
    }
  }

  lemma TrimmedHead(s: string)
    requires s != "" && !IsSpace(s[0])
    ensures TrimSpace(s) != ""
  {
    var t := TrimLeft(s, IsSpace);
    assert t == s;
    TrimRightKeeps(s, IsSpace);
  }

  /** The admin tool reads a value without quotes and escapes up to its first comment. */
  lemma AdminReadsBare(raw: string, n: nat)
    requires var v := TrimSpace(raw);
             && n <= |v| && Ordinary(v[..n]) && (n < |v| ==> CommentAt(v, n))
             && forall j :: 0 <= j < n ==> !CommentAt(v, j)
    ensures AdminValue(raw) == Ok(TrimSpace(TrimSpace(raw)[..n]))
  {
    var v := TrimSpace(raw);
    TrimIdentity(raw, IsSpace);
    assert v[..0] == "";
    AdminReadsBareTail(v, 0, n);
  }

  // ---------------------------------------------------------------- the OpenVPN line splitter

  datatype Splitter = Splitter(fields: seq<string>, current: string, quote: Option<char>, escaped: bool)

  function Flush(st: Splitter): Splitter {
    if st.current == "" then st else st.(fields := st.fields + [st.current], current := "")
  }

  function Advance(st: Splitter, r: char): Splitter {
    if st.escaped then st.(current := st.current + [r], escaped := false)
    else if r == '\\' then st.(escaped := true)
    else if st.quote.Some? then
      if r == st.quote.value then st.(quote := None) else st.(current := st.current + [r])
    else if r == '\'' || r == '"' then st.(quote := Some(r))
    else if r == ' ' || r == '\t' then Flush(st)
    else st.(current := st.current + [r])
  }

  function Scan(st: Splitter, line: string): Splitter
    decreases |line|
  {
    if line == "" then st else Scan(Advance(st, line[0]), line[1..])
  }

  function OpenVPNFields(line: string): Result<seq<string>> {
    var st := Scan(Splitter([], "", None, false), line);
    if st.escaped || st.quote.Some? then Err("unterminated escape or quote") else Ok(Flush(st).fields)
  }

  lemma {:induction false} ScanAppend(st: Splitter, a: string, b: string)
    ensures Scan(st, a + b) == Scan(Scan(st, a), b)
    decreases |a|
  {
    if a == "" {
      assert a + b == b;
    } else {
      assert (a + b)[0] == a[0] && (a + b)[1..] == a[1..] + b;
      ScanAppend(Advance(st, a[0]), a[1..], b);
    }
  }

  /** `splitOpenVPNFields`, with its local variables. */
  method SplitOpenVPNFields(line: string) returns (r: Result<seq<string>>)
    ensures r == OpenVPNFields(line)
  {
    var fields: seq<string> := [];
    var current := "";
    var quote: Option<char> := None;
    var escaped := false;
    ghost var start := Splitter([], "", None, false);
    assert line[..0] == "";
    for i := 0 to |line|
      invariant Scan(start, line[..i]) == Splitter(fields, current, quote, escaped)
    {
      var c := line[i];
      assert line[..i + 1] == line[..i] + [c];
      ScanAppend(start, line[..i], [c]);
      assert [c][1..] == "";
      if escaped {
        current := current + [c];
        escaped := false;
      } else if c == '\\' {
        escaped := true;
      } else if quote.Some? {
        if c == quote.value {
          quote := None;
        } else {
          current := current + [c];
        }
      } else if c == '\'' || c == '"' {
        quote := Some(c);
      } else if c == ' ' || c == '\t' {
        if current != "" {
          fields, current := fields + [current], "";
        }
      } else {
        current := current + [c];
      }
    }
    assert line[..|line|] == line;
    if escaped || quote.Some? {
      return Err("unterminated escape or quote");
    }
    if current != "" {
      fields := fields + [current];
    }
    return Ok(fields);
  }

  lemma {:induction false} ReplaceAllAppend(a: string, b: string, c: char, rep: string)
    ensures ReplaceAll(a + b, c, rep) == ReplaceAll(a, c, rep) + ReplaceAll(b, c, rep)
    decreases |a|
  {
    if a == "" {
      assert a + b == b;
    } else {
      assert (a + b)[0] == a[0] && (a + b)[1..] == a[1..] + b;
      ReplaceAllAppend(a[1..], b, c, rep);
    }
  }

  /** Two replacements in this order equal the simultaneous one. */
  lemma {:induction false} EscapesAgree(s: string)
    ensures ReplaceAll(ReplaceAll(s, '\\', "\\\\"), '"', "\\\"") == EscapeBoth(s)
  {
    if s != "" {
      EscapesAgree(s[1..]);
      var rest := ReplaceAll(s[1..], '\\', "\\\\");
      var head := if s[0] == '\\' then "\\\\" else [s[0]];
      ReplaceAllAppend(head, rest, '"', "\\\"");
      assert head[1..] == (if s[0] == '\\' then "\\" else "") && (s[0] == '\\' ==> head[1..][1..] == "");
    }
  }

  /** So the two quoting functions agree. */
  lemma NftAndSecretQuotesAgree(s: string)
    ensures NftQuote(s) == SecretQuote(s)
  {
    EscapesAgree(s);
  }

  lemma {:induction false} ScanEscaped(st: Splitter, s: string)
    requires st.quote == Some('"') && !st.escaped
    ensures Scan(st, EscapeBoth(s)) == st.(current := st.current + s)
    decreases |s|
  {
    if s == "" {
      assert st.current + s == st.current;
    } else {
      var head := if s[0] == '\\' || s[0] == '"' then ['\\', s[0]] else [s[0]];
      var next := st.(current := st.current + [s[0]]);
      ScanAppend(st, head, EscapeBoth(s[1..]));
      assert head[1..] == if s[0] == '\\' || s[0] == '"' then [s[0]] else "";
      assert [s[0]][1..] == "";
      if |head| == 2 {
        assert Advance(st, head[0]) == st.(escaped := true);
        assert Scan(st.(escaped := true), [s[0]]) == next;
      }
      assert Scan(st, head) == next;
      ScanEscaped(next, s[1..]);
      assert st.current + [s[0]] + s[1..] == st.current + s;
    }
  }

  /** The splitter gives back the single quoted field; an empty field disappears. */
  lemma OpenVPNReadsQuotes(s: string)
    ensures OpenVPNFields(SecretQuote(s)) == Ok(if s == "" then [] else [s])
    ensures OpenVPNFields(NftQuote(s)) == OpenVPNFields(SecretQuote(s))
  {
    NftAndSecretQuotesAgree(s);
    var start := Splitter([], "", None, false);
    var inside := start.(quote := Some('"'));
    assert SecretQuote(s) == "\"" + (EscapeBoth(s) + "\"");
    assert (SecretQuote(s))[1..] == EscapeBoth(s) + "\"";
    ScanAppend(inside, EscapeBoth(s), "\"");
    ScanEscaped(inside, s);
    assert inside.current + s == s;
    var closed := start.(current := s);
    assert Scan(inside.(current := s), "\"") == closed by {
      assert "\""[1..] == "";
    }
    assert Scan(start, SecretQuote(s)) == closed;
    assert [] + [s] == [s];
  }

  // ---------------------------------------------------------------- several fields

  /** A field as it stands on a line: as it is, or quoted. */
  datatype Field = Plain(text: string) | Quoted(text: string) {
    function Written(): string {
      if Plain? then text else SecretQuote(text)
    }

    /** Not empty, and as it is only without quotes, escapes and blanks. */
    predicate Valid() {
      && text != ""
      && (Plain? ==> Ordinary(text) && forall i :: 0 <= i < |text| ==> !Blank(text[i]))
    }
  }

  predicate AllBlank(s: string) {
    forall i :: 0 <= i < |s| ==> Blank(s[i])
  }

  predicate AllValid(fields: seq<Field>) {
    forall i :: 0 <= i < |fields| ==> fields[i].Valid()
  }

  /** A gap behind each field; only the one behind the last may be empty. */
  predicate Separates(gaps: seq<string>, fields: seq<Field>) {
    && |gaps| == |fields|
    && forall i :: 0 <= i < |gaps| ==> AllBlank(gaps[i]) && (i + 1 < |gaps| ==> gaps[i] != "")
  }

  function Line(fields: seq<Field>, gaps: seq<string>): string
    requires |fields| == |gaps|
  {
    if fields == [] then "" else fields[0].Written() + gaps[0] + Line(fields[1..], gaps[1..])
  }

  function Texts(fields: seq<Field>): seq<string> {
    if fields == [] then [] else [fields[0].text] + Texts(fields[1..])
  }

  predicate Between(st: Splitter) {
    st.current == "" && st.quote.None? && !st.escaped
  }

  lemma {:induction false} ScanPlain(st: Splitter, s: string)
    requires st.quote.None? && !st.escaped && Ordinary(s) && forall i :: 0 <= i < |s| ==> !Blank(s[i])
    ensures Scan(st, s) == st.(current := st.current + s)
    decreases |s|
  {
    if s == "" {
      assert st.current + s == st.current;
    } else {
      assert forall i :: 0 <= i < |s[1..]| ==> s[1..][i] == s[i + 1];
      ScanPlain(Advance(st, s[0]), s[1..]);
      assert st.current + [s[0]] + s[1..] == st.current + s;
    }
  }

  lemma ScanQuoted(st: Splitter, s: string)
    requires Between(st)
    ensures Scan(st, SecretQuote(s)) == st.(current := s)
  {
    var inside := st.(quote := Some('"'));
    assert SecretQuote(s) == "\"" + (EscapeBoth(s) + "\"");
    assert SecretQuote(s)[1..] == EscapeBoth(s) + "\"";
    ScanAppend(inside, EscapeBoth(s), "\"");
    ScanEscaped(inside, s);
    assert inside.current + s == s;
    assert "\""[1..] == "";
  }

  lemma {:induction false} ScanBlanks(st: Splitter, s: string)
    requires st.quote.None? && !st.escaped && AllBlank(s)
    ensures Scan(st, s) == if s == "" then st else Flush(st)
    decreases |s|
  {
    if s != "" {
      assert forall i :: 0 <= i < |s[1..]| ==> s[1..][i] == s[i + 1];
      ScanBlanks(Advance(st, s[0]), s[1..]);
    }
  }

  lemma ScanField(st: Splitter, f: Field, gap: string)
    requires Between(st) && f.Valid() && AllBlank(gap)
    ensures var end := Scan(st, f.Written() + gap);
            && end.quote.None? && !end.escaped && Flush(end).fields == st.fields + [f.text]
            && (gap != "" ==> Between(end) && end.fields == st.fields + [f.text])
  {
    ScanAppend(st, f.Written(), gap);
    if f.Plain? {
      ScanPlain(st, f.text);
      assert st.current + f.text == f.text;
    } else {
      ScanQuoted(st, f.text);
    }
    ScanBlanks(st.(current := f.text), gap);
  }

  lemma SeparatesRest(gaps: seq<string>, fields: seq<Field>)
    requires |fields| > 1 && Separates(gaps, fields) && AllValid(fields)
    ensures Separates(gaps[1..], fields[1..]) && AllValid(fields[1..]) && gaps[0] != "" && AllBlank(gaps[0])
  {
    assert forall i :: 0 <= i < |gaps[1..]| ==> gaps[1..][i] == gaps[i + 1] && fields[1..][i] == fields[i + 1];
  }

  lemma ThenTexts(before: seq<string>, text: string, after: seq<string>)
    ensures before + [text] + after == before + ([text] + after)
    ensures before + [] == before
  {
  }

  /** The splitter after one field and its gap. */
  lemma ScanHead(st: Splitter, f: Field, gap: string, rest: string)
    requires Between(st) && f.Valid() && AllBlank(gap)
    ensures var next := Scan(st, f.Written() + gap);
            && Scan(st, f.Written() + gap + rest) == Scan(next, rest)
            && next.quote.None? && !next.escaped && Flush(next).fields == st.fields + [f.text]
            && (gap != "" ==> Between(next) && next.fields == st.fields + [f.text])
  {
    ScanAppend(st, f.Written() + gap, rest);
    ScanField(st, f, gap);
  }

  lemma {:induction false} ScanLine(st: Splitter, fields: seq<Field>, gaps: seq<string>)
    requires Between(st) && AllValid(fields) && Separates(gaps, fields)
    ensures var end := Scan(st, Line(fields, gaps));
            end.quote.None? && !end.escaped && Flush(end).fields == st.fields + Texts(fields)
    decreases |fields|
  {
    if fields == [] {
      ThenTexts(st.fields, "", []);
    } else {
      var f, gap, fs, gs := fields[0], gaps[0], fields[1..], gaps[1..];
      ScanHead(st, f, gap, Line(fs, gs));
      ThenTexts(st.fields, f.text, Texts(fs));
      if fs == [] {
        ThenTexts([f.text], "", []);
      } else {
        SeparatesRest(gaps, fields);
        ScanLine(Scan(st, f.Written() + gap), fs, gs);
      }
    }
  }

  /** The splitter separates a line at its blanks: plain and quoted fields in any mixture come back, in order. */
  lemma OpenVPNReadsLine(lead: string, fields: seq<Field>, gaps: seq<string>)
    requires AllBlank(lead) && AllValid(fields) && Separates(gaps, fields)
    ensures OpenVPNFields(lead + Line(fields, gaps)) == Ok(Texts(fields))
  {
    var start := Splitter([], "", None, false);
    ScanAppend(start, lead, Line(fields, gaps));
    ScanBlanks(start, lead);
    ScanLine(start, fields, gaps);
    assert [] + Texts(fields) == Texts(fields);
  }
}
