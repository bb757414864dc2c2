/** The env file that the worker writes on a node (`renderEnvFile`) and the agent reads back
    (`readEnvFile`), and the exact condition under which the agent sees the worker's values. */
module EnvFile {
  import opened Common
  import opened Text

  datatype Entry = Entry(key: string, value: string)

  // ---------------------------------------------------------------- the writer

  /** The pattern `^[A-Z][A-Z0-9_]*$`. */
  predicate ValidKey(k: string) {
    && k != ""
    && 'A' <= k[0] <= 'Z'
    && forall i :: 0 <= i < |k| ==> 'A' <= k[i] <= 'Z' || '0' <= k[i] <= '9' || k[i] == '_'
  }

  /** `domain.ValidateSingleLine` */
  predicate SingleLine(v: string) {
    forall i :: 0 <= i < |v| ==> !IsControl(v[i])
  }

  predicate Accepted(e: Entry) {
    ValidKey(e.key) && SingleLine(e.value)
  }

  function Line(e: Entry): string {
    e.key + "=" + e.value
  }

  function Lines(es: seq<Entry>): string {
    if es == [] then "" else Line(es[0]) + "\n" + Lines(es[1..])
  }

  lemma {:induction false} LinesAppend(es: seq<Entry>, e: Entry)
    ensures Lines(es + [e]) == Lines(es) + Line(e) + "\n"
  {
    if es == [] {
      assert es + [e] == [e] && [e][1..] == [];
    } else {
      assert (es + [e])[1..] == es[1..] + [e];
      LinesAppend(es[1..], e);
    }
  }

  method IsSingleLine(v: string) returns (ok: bool)
    ensures ok == SingleLine(v)
  {
    for i := 0 to |v|
      invariant forall j :: 0 <= j < i ==> !IsControl(v[j])
    {
      if v[i] == '\0' || IsControl(v[i]) {
        return false;
      }
    }
    return true;
  }

  /** `renderEnvFile` */
  method RenderEnvFile(entries: seq<Entry>) returns (r: Result<string>)
    ensures r.Ok? <==> forall e :: e in entries ==> Accepted(e)
    ensures r.Ok? ==> r.value == Lines(entries)
  {
    var b := "";
    assert entries[..0] == [];
    for i := 0 to |entries|
      invariant b == Lines(entries[..i])
      invariant forall j :: 0 <= j < i ==> Accepted(entries[j])
    {
      var entry := entries[i];
      assert entry in entries;
      if !ValidKey(entry.key) {
        return Err("invalid bootstrap env key");
      }
      var single := IsSingleLine(entry.value);
      if !single {
        return Err("must not contain control characters");
      }
      b := b + entry.key + "=" + entry.value + "\n";
      assert entries[..i + 1] == entries[..i] + [entry];
      LinesAppend(entries[..i], entry);
    }
    assert entries[..|entries|] == entries;
    return Ok(b);
  }

  // ---------------------------------------------------------------- the reader

  /** The longest line, in bytes, that fits the scanner's 64 KiB buffer together with its newline. */
  const MAX_LINE := 65535

  function IndexOf(s: string, c: char): (i: nat)
    ensures i <= |s|
    ensures forall j :: 0 <= j < i ==> s[j] != c
    ensures i < |s| ==> s[i] == c
  {
    if s == "" || s[0] == c then 0 else 1 + IndexOf(s[1..], c)
  }

  lemma IndexOfUnique(s: string, c: char, i: nat)
    requires i < |s| && s[i] == c && forall j :: 0 <= j < i ==> s[j] != c
    ensures IndexOf(s, c) == i
  {
  }

  function DropCR(s: string): string {
    if s != "" && s[|s| - 1] == '\r' then s[..|s| - 1] else s
  }

  /** The value the reader stores for the text after `=`. */
  function Stored(v: string): string {
    Trim(TrimSpace(v), IsDoubleQuote)
  }

  /** What one line does to the map. */
  function Absorb(out: map<string, string>, raw: string): map<string, string> {
    var line := TrimSpace(raw);
    if line == "" || line[0] == '#' then out
    else
      var eq := IndexOf(line, '=');
      if eq == |line| then out
      else
        var k := TrimSpace(line[..eq]);
        if k == "" then out else out[k := Stored(line[eq + 1..])]
  }

  /** The map read and whether the scanner stopped at an over-long line. */
  datatype Reading = Reading(values: map<string, string>, tooLong: bool)

  function ReadFrom(text: string, out: map<string, string>): Reading
    decreases |text|
  {
    if text == "" then Reading(out, false)
    else
      var n := IndexOf(text, '\n');
      if Utf8Size(text[..n]) > MAX_LINE then Reading(out, true)
      else ReadFrom(if n < |text| then text[n + 1..] else "", Absorb(out, DropCR(text[..n])))
  }

  /** `readEnvFile` on the file's text. */
  method ReadEnvFile(text: string) returns (r: Reading)
    ensures r == ReadFrom(text, map[])
  {
    var out: map<string, string> := map[];
    var rest := text;
    while rest != ""
      invariant ReadFrom(rest, out) == ReadFrom(text, map[])
      decreases |rest|
    {
      var n := IndexOf(rest, '\n');
      if Utf8Size(rest[..n]) > MAX_LINE {
        return Reading(out, true);
      }
      var line := TrimSpace(DropCR(rest[..n]));
      rest := if n < |rest| then rest[n + 1..] else "";
      if line == "" || line[0] == '#' {
        continue;
      }
      var eq := IndexOf(line, '=');
      if eq == |line| {
        continue;
      }
      var k := TrimSpace(line[..eq]);
      var v := Trim(TrimSpace(line[eq + 1..]), IsDoubleQuote);
      if k != "" {
        out := out[k := v];
      }
    }
    return Reading(out, false);
  }

  // ---------------------------------------------------------------- the round trip

  /** Every entry stored in order, up to the first line the scanner cannot hold. */
  function Received(es: seq<Entry>, out: map<string, string>): Reading {
    if es == [] then Reading(out, false)
    else if Utf8Size(Line(es[0])) > MAX_LINE then Reading(out, true)
    else Received(es[1..], out[es[0].key := Stored(es[0].value)])
  }

  lemma {:induction false} TrimRightOfPrefix(a: string, v: string, cut: char -> bool)
    requires a != "" && !cut(a[|a| - 1])
    ensures TrimRight(a + v, cut) == a + TrimRight(v, cut)
    decreases |v|
  {
    if v == "" {
      assert a + v == a;
    } else if cut(v[|v| - 1]) {
      assert (a + v)[..|a + v| - 1] == a + v[..|v| - 1];
      TrimRightOfPrefix(a, v[..|v| - 1], cut);
    }
  }

  lemma {:induction false} TrimAfterTrimRight(v: string, cut: char -> bool)
    ensures Trim(TrimRight(v, cut), cut) == Trim(v, cut)
    decreases |v|
  {
    if v != "" && cut(v[|v| - 1]) {
      TrimAfterTrimRight(v[..|v| - 1], cut);
      TrimDropLast(v, cut);
    }
  }

  lemma {:induction false} TrimDropLast(v: string, cut: char -> bool)
    requires v != "" && cut(v[|v| - 1])
    ensures Trim(v[..|v| - 1], cut) == Trim(v, cut)
    decreases |v|
  {
    var w := v[..|v| - 1];
    if |v| == 1 {
      assert v[1..] == "" && w == "";
    } else if cut(v[0]) {
      assert v[1..][..|v[1..]| - 1] == w[1..];
      TrimDropLast(v[1..], cut);
    }
  }

  /** One rendered line stores exactly its own key, with the value's ends stripped. */
  lemma LineIsAbsorbed(e: Entry, out: map<string, string>)
    requires Accepted(e)
    ensures Absorb(out, Line(e)) == out[e.key := Stored(e.value)]
  {
    var raw := Line(e);
    var head := e.key + "=";
    assert raw[0] == e.key[0] && !IsSpace(raw[0]);
    TrimRightOfPrefix(head, e.value, IsSpace);
    var line := TrimSpace(raw);
    assert line == head + TrimRight(e.value, IsSpace);
    IndexOfUnique(line, '=', |e.key|);
    assert line[..|e.key|] == e.key;
    TrimIdentity(e.key, IsSpace);
    assert line[|e.key| + 1..] == TrimRight(e.value, IsSpace);
    TrimAfterTrimRight(e.value, IsSpace);
  }

  /** The agent's view of a rendered file, for every entry list the worker accepts: repeated keys,
      values with white space or quotes at their ends and over-long lines included. */
  lemma {:induction false} EnvFileIsReceived(es: seq<Entry>, out: map<string, string>)
    requires forall e :: e in es ==> Accepted(e)
    ensures ReadFrom(Lines(es), out) == Received(es, out)
    decreases |es|
  {
    if es != [] {
      var e, line := es[0], Line(es[0]);
      var text := Lines(es);
      assert e in es && forall d :: d in es[1..] ==> d in es;
      assert text == line + ("\n" + Lines(es[1..]));
      assert forall j :: 0 <= j < |line| ==> !IsControl(line[j]);
      IndexOfUnique(text, '\n', |line|);
      assert text[..|line|] == line && text[|line| + 1..] == Lines(es[1..]);
      assert DropCR(line) == line;
      LineIsAbsorbed(e, out);
      EnvFileIsReceived(es[1..], out[e.key := Stored(e.value)]);
    }
  }

  predicate DistinctKeys(es: seq<Entry>) {
    forall i, j :: 0 <= i < j < |es| ==> es[i].key != es[j].key
  }

  function Find(es: seq<Entry>, k: string): Option<string> {
    if es == [] then None else if es[0].key == k then Some(es[0].value) else Find(es[1..], k)
  }

  predicate HasKey(es: seq<Entry>, k: string) {
    exists i :: 0 <= i < |es| && es[i].key == k
  }

  /** The map the worker meant: it gives each entry's key that entry's value and nothing else. */
  ghost predicate Means(m: map<string, string>, es: seq<Entry>) {
    && (forall i :: 0 <= i < |es| ==> es[i].key in m && m[es[i].key] == es[i].value)
    && (forall k :: k in m ==> HasKey(es, k))
  }

  predicate Fits(es: seq<Entry>) {
    forall e :: e in es ==> Utf8Size(Line(e)) <= MAX_LINE
  }

  /** Free of white space and of double quotes at both ends. */
  predicate PlainValue(v: string) {
    Clean(v, IsSpace) && Clean(v, IsDoubleQuote)
  }

  lemma StoredIdentity(v: string)
    ensures Stored(v) == v <==> PlainValue(v)
  {
    TrimIdentity(v, IsSpace);
    TrimIdentity(v, IsDoubleQuote);
    var w := TrimSpace(v);
    TrimLeftSuffix(v, IsSpace);
    TrimRightPrefix(TrimLeft(v, IsSpace), IsSpace);
    TrimLeftSuffix(w, IsDoubleQuote);
    TrimRightPrefix(TrimLeft(w, IsDoubleQuote), IsDoubleQuote);
  }

  lemma {:induction false} ReceivedAt(es: seq<Entry>, out: map<string, string>, k: string)
    requires DistinctKeys(es) && Fits(es)
    ensures !Received(es, out).tooLong
    ensures var got, found := Received(es, out).values, Find(es, k);
            if found.Some? then k in got && got[k] == Stored(found.value)
            else (k in got <==> k in out) && (k in got ==> got[k] == out[k])
    ensures Find(es, k).Some? <==> HasKey(es, k)
    decreases |es|
  {
    if es != [] {
      var rest := es[1..];
      assert forall d :: d in rest ==> d in es;
      assert es[0] in es;
      ReceivedAt(rest, out[es[0].key := Stored(es[0].value)], k);
      assert HasKey(rest, k) ==> HasKey(es, k) by {
        if HasKey(rest, k) {
          var i :| 0 <= i < |rest| && rest[i].key == k;
          assert es[i + 1].key == k;
        }
      }
      if es[0].key == k {
        assert !HasKey(rest, k);
      } else if HasKey(es, k) {
        var i :| 0 <= i < |es| && es[i].key == k;
        assert rest[i - 1].key == k;
      }
    }
  }

  lemma {:induction false} FindEntry(es: seq<Entry>, i: nat)
    requires DistinctKeys(es) && i < |es|
    ensures Find(es, es[i].key) == Some(es[i].value)
    decreases |es|
  {
    if i > 0 {
      assert es[1..][i - 1] == es[i] && es[0].key != es[i].key;
      FindEntry(es[1..], i - 1);
    }
  }

  /** The agent reads exactly the worker's map if and only if every value is plain. */
  lemma EnvFileRoundTrip(es: seq<Entry>)
    requires (forall e :: e in es ==> Accepted(e)) && DistinctKeys(es) && Fits(es)
    ensures !ReadFrom(Lines(es), map[]).tooLong
    ensures Means(ReadFrom(Lines(es), map[]).values, es) <==> forall i :: 0 <= i < |es| ==> PlainValue(es[i].value)
  {
    EnvFileIsReceived(es, map[]);
    ReceivedAt(es, map[], "");
    var got := Received(es, map[]).values;
    forall k | k in got
      ensures HasKey(es, k)
    {
      ReceivedAt(es, map[], k);
    }
    forall i | 0 <= i < |es|
      ensures es[i].key in got && (got[es[i].key] == es[i].value <==> PlainValue(es[i].value))
    {
      ReceivedAt(es, map[], es[i].key);
      FindEntry(es, i);
      StoredIdentity(es[i].value);
    }
  }
}
