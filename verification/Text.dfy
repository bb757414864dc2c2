/** The character classes and trimming functions of Go's `strings` and `unicode` packages that the
    modelled code relies on.  A string is a sequence of Unicode scalar values. */
module Text {

  /** `unicode.IsSpace` */
  predicate IsSpace(c: char) {
    || '\t' <= c <= '\r'
    || c == ' '
    || c == '\U{85}' || c == '\U{A0}' || c == '\U{1680}'
    || '\U{2000}' <= c <= '\U{200A}'
    || c == '\U{2028}' || c == '\U{2029}' || c == '\U{202F}' || c == '\U{205F}' || c == '\U{3000}'
  }

  /** `unicode.IsControl` */
  predicate IsControl(c: char) {
    c < ' ' || '\U{7F}' <= c <= '\U{9F}'
  }

  predicate IsDoubleQuote(c: char) {
    c == '"'
  }

  function TrimLeft(s: string, cut: char -> bool): string {
    if s != "" && cut(s[0]) then TrimLeft(s[1..], cut) else s
  }

  function TrimRight(s: string, cut: char -> bool): string {
    if s != "" && cut(s[|s| - 1]) then TrimRight(s[..|s| - 1], cut) else s
  }

  /** `strings.TrimFunc`: both ends, as long as `cut` holds. */
  function Trim(s: string, cut: char -> bool): string {
    TrimRight(TrimLeft(s, cut), cut)
  }

  /** `strings.TrimSpace` */
  function TrimSpace(s: string): string {
    Trim(s, IsSpace)
  }

  /** Neither end would be cut. */
  predicate Clean(s: string, cut: char -> bool) {
    s != "" ==> !cut(s[0]) && !cut(s[|s| - 1])
  }

  lemma TrimLeftSuffix(s: string, cut: char -> bool)
    ensures TrimLeft(s, cut) == s || |TrimLeft(s, cut)| < |s|
    ensures |TrimLeft(s, cut)| <= |s| && TrimLeft(s, cut) == s[|s| - |TrimLeft(s, cut)|..]
    ensures TrimLeft(s, cut) != "" ==> !cut(TrimLeft(s, cut)[0])
  {
  }

  lemma TrimRightPrefix(s: string, cut: char -> bool)
    ensures |TrimRight(s, cut)| <= |s| && TrimRight(s, cut) == s[..|TrimRight(s, cut)|]
    ensures TrimRight(s, cut) != "" ==> !cut(TrimRight(s, cut)[|TrimRight(s, cut)| - 1])
    ensures TrimRight(s, cut) == s || |TrimRight(s, cut)| < |s|
  {
  }

  /** A text that does not start with a cut character keeps something. */
  lemma {:induction false} TrimRightKeeps(s: string, cut: char -> bool)
    requires s != "" && !cut(s[0])
    ensures TrimRight(s, cut) != ""
    decreases |s|
  {
    if cut(s[|s| - 1]) {
      TrimRightKeeps(s[..|s| - 1], cut);
    }
  }

  /** Trimming is the identity exactly on strings with clean ends, and its result always has them. */
  lemma TrimIdentity(s: string, cut: char -> bool)
    ensures Trim(s, cut) == s <==> Clean(s, cut)
    ensures Clean(Trim(s, cut), cut)
  {
    TrimLeftSuffix(s, cut);
    TrimRightPrefix(TrimLeft(s, cut), cut);
  }

  /** The number of bytes of the UTF-8 form. */
  function Utf8Size(s: string): nat {
    if s == "" then 0
    else (if s[0] < '\U{80}' then 1 else if s[0] < '\U{800}' then 2 else if s[0] < '\U{10000}' then 3 else 4)
         + Utf8Size(s[1..])
  }

  /** `strings.Split` on one character. */
  function Split(s: string, sep: char): (parts: seq<string>)
    ensures parts != []
  {
    if s == "" then [""]
    else if s[0] == sep then [""] + Split(s[1..], sep)
    else
      var rest := Split(s[1..], sep);
      [[s[0]] + rest[0]] + rest[1..]
  }

  lemma {:induction false} SplitWhole(a: string, sep: char)
    requires sep !in a
    ensures Split(a, sep) == [a]
  {
    if a != "" {
      SplitWhole(a[1..], sep);
      assert a == [a[0]] + a[1..];
    }
  }

  lemma SplitCons(c: char, s: string, sep: char)
    ensures var rest := Split(s, sep);
            Split([c] + s, sep) == if c == sep then [""] + rest else [[c] + rest[0]] + rest[1..]
  {
    assert ([c] + s)[1..] == s;
  }

  lemma HeadAndTail(x: seq<string>, y: seq<string>, first: string)
    requires x != []
    ensures [first] + (x + y) == [first] + x + y
    ensures (x + y)[0] == x[0] && [first] + (x + y)[1..] == [first] + x[1..] + y
  {
    assert (x + y)[1..] == x[1..] + y;
  }

  lemma {:induction false} SplitAppend(a: string, b: string, sep: char)
    ensures Split(a + [sep] + b, sep) == Split(a, sep) + Split(b, sep)
    decreases |a|
  {
    if a == "" {
      assert a + [sep] + b == [sep] + b;
      SplitCons(sep, b, sep);
    } else {
      var c, tail := a[0], a[1..];
      var whole := tail + [sep] + b;
      assert a == [c] + tail && a + [sep] + b == [c] + whole;
      SplitAppend(tail, b, sep);
      SplitCons(c, tail, sep);
      SplitCons(c, whole, sep);
      HeadAndTail(Split(tail, sep), Split(b, sep), if c == sep then "" else [c] + Split(tail, sep)[0]);
    }
  }
}
