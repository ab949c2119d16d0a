/** Single-quoted words: how a script quotes a value and how the shell reads it back. */
module Shell {
  import opened Common

  /** `v.replace("'", "'\\''")` */
  function Shq(v: string): string {
    if v == "" then ""
    else if v[0] == '\'' then "'\\''" + Shq(v[1..])
    else [v[0]] + Shq(v[1..])
  }

  /** A character that means something to the shell outside quotes. */
  predicate Special(c: char) {
    c in {'|', '&', ';', '<', '>', '(', ')', '$', '`', '"', ' ', '\t', '*', '?', '[', '#', '~', '='}
  }

  /** A word's value and what follows it. */
  datatype Word = Word(value: string, rest: string)

  function Prepend(c: char, w: Option<Word>): Option<Word> {
    if w.Some? then Some(Word([c] + w.value.value, w.value.rest)) else None
  }

  /**
   * Reads one word up to an unquoted newline or the end: sections 2.2.1 (backslash) and 2.2.2 (single quotes)
   * of the POSIX Shell Command Language. None for NUL, an open quote, or anything that needs other rules.
   */
  function ReadWord(s: string, quoted: bool): Option<Word>
    decreases |s|
  {
    if s == "" then if quoted then None else Some(Word("", ""))
    else if s[0] == '\0' then None
    else if s[0] == '\'' then ReadWord(s[1..], !quoted)
    else if quoted then Prepend(s[0], ReadWord(s[1..], true))
    else if s[0] == '\n' then Some(Word("", s))
    else if s[0] == '\\' then
      if |s| == 1 || s[1] == '\0' then None
      else if s[1] == '\n' then ReadWord(s[2..], false)
      else Prepend(s[1], ReadWord(s[2..], false))
    else if Special(s[0]) then None
    else Prepend(s[0], ReadWord(s[1..], false))
  }

  function PrependAll(v: string, w: Option<Word>): Option<Word> {
    if w.Some? then Some(Word(v + w.value.value, w.value.rest)) else None
  }

  /** Close, escaped quote, open again: one quote character. */
  lemma EscapedQuote(tail: string)
    ensures ReadWord("'\\''" + tail, true) == Prepend('\'', ReadWord(tail, true))
  {
    var s := "'\\''" + tail;
    var s1, s2 := "\\''" + tail, "'" + tail;
    assert s[1..] == s1 && s1[2..] == s2 && s2[1..] == tail;
    assert s1[0] == '\\' && s1[1] == '\'';
    assert ReadWord(s2, false) == ReadWord(tail, true);
    assert ReadWord(s1, false) == Prepend('\'', ReadWord(s2, false));
  }

  lemma PrependFirst(v: string, w: Option<Word>)
    requires v != ""
    ensures Prepend(v[0], PrependAll(v[1..], w)) == PrependAll(v, w)
  {
    if w.Some? {
      assert [v[0]] + (v[1..] + w.value.value) == v + w.value.value;
    }
  }

  /** The first character of v comes out first, and reading goes on with the quoted form of the rest. */
  lemma FirstCharReads(v: string, rest: string)
    requires v != "" && v[0] != '\0'
    ensures ReadWord(Shq(v) + "'" + rest, true) == Prepend(v[0], ReadWord(Shq(v[1..]) + "'" + rest, true))
  {
    var s, tail := Shq(v) + "'" + rest, Shq(v[1..]) + "'" + rest;
    if v[0] == '\'' {
      assert s == "'\\''" + tail;
      EscapedQuote(tail);
    } else {
      assert s[0] == v[0] && s[1..] == tail;
    }
  }

  /** Inside quotes, the quoted form of v reads as v, and reading goes on behind the closing quote. */
  lemma {:induction false} QuotedReadsBack(v: string, rest: string)
    requires '\0' !in v
    ensures ReadWord(Shq(v) + "'" + rest, true) == PrependAll(v, ReadWord(rest, false))
  {
    if v == "" {
      assert (Shq(v) + "'" + rest)[1..] == rest;
      var w := ReadWord(rest, false);
      assert w.Some? ==> "" + w.value.value == w.value.value;
    } else {
      QuotedReadsBack(v[1..], rest);
      PrependFirst(v, ReadWord(rest, false));
      FirstCharReads(v, rest);
    }
  }

  lemma {:induction false} NulIsRefused(v: string, rest: string)
    requires '\0' in v
    ensures ReadWord(Shq(v) + "'" + rest, true) == None
  {
    if v[0] != '\0' {
      NulIsRefused(v[1..], rest);
      FirstCharReads(v, rest);
    }
  }

  /** The shell reads `'` + _shq(v) + `'` back as exactly v, for every v without NUL. */
  lemma QuotingRoundTrip(v: string)
    ensures ReadWord("'" + Shq(v) + "'", false) == (if '\0' in v then None else Some(Word(v, "")))
  {
    var s := "'" + Shq(v) + "'";
    assert s[1..] == Shq(v) + "'" + "";
    if '\0' in v {
      NulIsRefused(v, "");
    } else {
      QuotedReadsBack(v, "");
      assert v + "" == v;
    }
  }
}
