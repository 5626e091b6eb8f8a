/**
 * The vertex attribute written for each vertex when the graph is printed in
 * DOT form: ` [label="…"]`, with every double quote of the label preceded by
 * a backslash. The rest of the DOT text is produced by the graph library and
 * is not part of this model.
 */
module Graphviz {
  import opened Wrappers

  /** Number of double quotes in `s`. */
  function QuoteCount(s: string): nat
  {
    if s == [] then 0 else (if s[0] == '"' then 1 else 0) + QuoteCount(s[1..])
  }

  /** The label with each `"` replaced by `\"`; every other character is copied. */
  function Escape(s: string): (r: string)
  {
    if s == [] then []
    else (if s[0] == '"' then ['\\', '"'] else [s[0]]) + Escape(s[1..])
  }

  /** Removes the backslash in front of every quote; the partner of `Escape`. */
  function Unescape(r: string): (s: string)
    ensures |s| <= |r|
  {
    if r == [] then []
    else if |r| >= 2 && r[0] == '\\' && r[1] == '"' then ['"'] + Unescape(r[2..])
    else [r[0]] + Unescape(r[1..])
  }

  /** The attribute list written after a vertex's descriptor. */
  function VertexAttr(text: string): (r: string)
    ensures |r| == |text| + QuoteCount(text) + 11
  {
    EscapeLength(text);
    " [label=\"" + Escape(text) + "\"]"
  }

  /** Escaping adds exactly one character per quote. */
  lemma {:induction false} EscapeLength(s: string)
    ensures |Escape(s)| == |s| + QuoteCount(s)
  {
    if s != [] {
      EscapeLength(s[1..]);
    }
  }

  /** Escaping works character by character, so it distributes over concatenation. */
  lemma {:induction false} EscapeConcat(a: string, b: string)
    ensures Escape(a + b) == Escape(a) + Escape(b)
  {
    if a == [] {
      assert a + b == b;
    } else {
      assert (a + b)[0] == a[0] && (a + b)[1..] == a[1..] + b;
      EscapeConcat(a[1..], b);
    }
  }

  /** A label without quotes is written unchanged. */
  lemma {:induction false} EscapeNoQuote(s: string)
    requires '"' !in s
    ensures Escape(s) == s
  {
    if s != [] {
      assert s[0] != '"';
      assert '"' !in s[1..] by {
        forall k | 0 <= k < |s[1..]| ensures s[1..][k] != '"' {
          assert s[1..][k] == s[k + 1];
        }
      }
      EscapeNoQuote(s[1..]);
    }
  }

  /** An escaped text never begins with a bare quote. */
  lemma EscapeStart(s: string)
    requires s != []
    ensures Escape(s) != [] && Escape(s)[0] != '"'
  {
  }

  /** Every quote of the escaped text has a backslash right before it. */
  lemma {:induction false} EscapedQuotes(s: string)
    ensures forall i :: 0 <= i < |Escape(s)| && Escape(s)[i] == '"' ==> i > 0 && Escape(s)[i - 1] == '\\'
  {
    if s != [] {
      EscapedQuotes(s[1..]);
      var head: string := if s[0] == '"' then ['\\', '"'] else [s[0]];
      var tail := Escape(s[1..]);
      assert Escape(s) == head + tail;
      forall i | 0 <= i < |head + tail| && (head + tail)[i] == '"'
        ensures i > 0 && (head + tail)[i - 1] == '\\'
      {
        if i >= |head| {
          assert (head + tail)[i] == tail[i - |head|];
          if i - |head| == 0 {
            assert false;
          } else {
            assert (head + tail)[i - 1] == tail[i - 1 - |head|];
          }
        }
      }
    }
  }

  /** Dropping the inserted backslashes gives back the label. */
  lemma {:induction false} UnescapeEscape(s: string)
    ensures Unescape(Escape(s)) == s
  {
    if s != [] {
      var tail := Escape(s[1..]);
      UnescapeEscape(s[1..]);
      if s[0] == '"' {
        assert Escape(s) == ['\\', '"'] + tail;
        assert (['\\', '"'] + tail)[2..] == tail;
      } else {
        assert Escape(s) == [s[0]] + tail;
        assert ([s[0]] + tail)[1..] == tail;
        if tail != [] {
          EscapeStart(s[1..]);
        }
      }
    }
  }

  /**
   * How the DOT lexer of Graphviz takes in a double-quoted string whose
   * opening quote is already consumed: `\"` stands for a quote, `\\` is
   * kept as the two characters, a backslash before a newline continues the
   * line and both are dropped, any other character stands for itself, and a
   * bare `"` closes the string. The result is the string's content and the
   * text after the closing quote.
   */
  function ReadQuoted(s: string): (r: Option<(string, string)>)
    ensures r.Some? ==> |r.value.1| < |s|
  {
    if s == [] then None
    else if s[0] == '"' then Some(([], s[1..]))
    else if |s| >= 2 && s[0] == '\\' && s[1] == '"' then
      match ReadQuoted(s[2..])
      case None => None
      case Some((content, rest)) => Some((['"'] + content, rest))
    else if |s| >= 2 && s[0] == '\\' && s[1] == '\\' then
      match ReadQuoted(s[2..])
      case None => None
      case Some((content, rest)) => Some((['\\', '\\'] + content, rest))
    else if |s| >= 2 && s[0] == '\\' && s[1] == '\n' then
      ReadQuoted(s[2..])
    else
      match ReadQuoted(s[1..])
      case None => None
      case Some((content, rest)) => Some(([s[0]] + content, rest))
  }

  /**
   * Every backslash of the text is followed by a character that is neither a
   * double quote nor a newline; in particular the text does not end in one.
   */
  predicate PlainBackslashes(text: string) {
    forall i :: 0 <= i < |text| && text[i] == '\\' ==>
      i + 1 < |text| && text[i + 1] != '"' && text[i + 1] != '\n'
  }

  lemma PlainBackslashesSuffix(text: string, k: nat)
    requires PlainBackslashes(text) && k <= |text|
    ensures PlainBackslashes(text[k..])
  {
    forall i | 0 <= i < |text[k..]| && text[k..][i] == '\\'
      ensures i + 1 < |text[k..]| && text[k..][i + 1] != '"' && text[k..][i + 1] != '\n'
    {
      assert text[k..][i] == text[k + i];
    }
  }

  /** The escaped text starts with the text's first character unless that is a quote. */
  lemma EscapeFirst(s: string)
    requires s != [] && s[0] != '"'
    ensures Escape(s) != [] && Escape(s)[0] == s[0]
  {
  }

  /** An escaped quote in front of a readable string is read as a quote. */
  lemma ReadQuote(s: string, content: string, rest: string)
    requires ReadQuoted(s) == Some((content, rest))
    ensures ReadQuoted(['\\', '"'] + s) == Some((['"'] + content, rest))
  {
    var t := ['\\', '"'] + s;
    assert t[0] == '\\' && t[1] == '"' && t[2..] == s;
  }

  /** A doubled backslash in front of a readable string is kept as it is. */
  lemma ReadBackslashPair(s: string, content: string, rest: string)
    requires ReadQuoted(s) == Some((content, rest))
    ensures ReadQuoted(['\\', '\\'] + s) == Some((['\\', '\\'] + content, rest))
  {
    var t := ['\\', '\\'] + s;
    assert t[0] == '\\' && t[1] == '\\' && t[2..] == s;
  }

  /** Any other character that does not start an escape is read as itself. */
  lemma ReadPlain(c: char, s: string, content: string, rest: string)
    requires c != '"'
    requires c == '\\' ==> s == [] || (s[0] != '"' && s[0] != '\\' && s[0] != '\n')
    requires ReadQuoted(s) == Some((content, rest))
    ensures ReadQuoted([c] + s) == Some(([c] + content, rest))
  {
    var t := [c] + s;
    assert t[0] == c && t[1..] == s;
  }

  /** Reading back an escaped quote followed by a text that reads back. */
  lemma ReadEscapedQuote(tail: string, rest: string)
    requires ReadQuoted(Escape(tail) + "\"" + rest) == Some((tail, rest))
    ensures ReadQuoted(Escape(['"'] + tail) + "\"" + rest) == Some((['"'] + tail, rest))
  {
    var text := ['"'] + tail;
    assert text[0] == '"' && text[1..] == tail;
    var after := Escape(tail) + "\"" + rest;
    assert Escape(text) + "\"" + rest == ['\\', '"'] + after;
    ReadQuote(after, tail, rest);
  }

  /** Reading back a doubled backslash followed by a text that reads back. */
  lemma ReadEscapedPair(tail: string, rest: string)
    requires ReadQuoted(Escape(tail) + "\"" + rest) == Some((tail, rest))
    ensures ReadQuoted(Escape(['\\', '\\'] + tail) + "\"" + rest) == Some((['\\', '\\'] + tail, rest))
  {
    var text := ['\\', '\\'] + tail;
    assert text[0] == '\\' && text[1..] == ['\\'] + tail;
    assert text[1..][0] == '\\' && text[1..][1..] == tail;
    assert Escape(text) == ['\\', '\\'] + Escape(tail);
    var after := Escape(tail) + "\"" + rest;
    assert Escape(text) + "\"" + rest == ['\\', '\\'] + after;
    ReadBackslashPair(after, tail, rest);
  }

  /** Reading back a character that starts no escape, followed by a text that reads back. */
  lemma ReadEscapedPlain(c: char, tail: string, rest: string)
    requires c != '"'
    requires c == '\\' ==> tail != [] && tail[0] != '"' && tail[0] != '\\' && tail[0] != '\n'
    requires ReadQuoted(Escape(tail) + "\"" + rest) == Some((tail, rest))
    ensures ReadQuoted(Escape([c] + tail) + "\"" + rest) == Some(([c] + tail, rest))
  {
    var text := [c] + tail;
    assert text[0] == c && text[1..] == tail;
    var after := Escape(tail) + "\"" + rest;
    assert Escape(text) + "\"" + rest == [c] + after;
    if c == '\\' {
      EscapeFirst(tail);
      assert after[0] == tail[0];
    }
    ReadPlain(c, after, tail, rest);
  }

  /**
   * Reading back a written label recovers it and stops right after the
   * closing quote, provided no backslash of the label comes last or
   * right before a quote or a newline.
   */
  lemma {:induction false} ReadEscaped(text: string, rest: string)
    requires PlainBackslashes(text)
    ensures ReadQuoted(Escape(text) + "\"" + rest) == Some((text, rest))
    decreases |text|
  {
    if text == [] {
      assert Escape(text) + "\"" + rest == ['"'] + rest;
    } else if text[0] == '\\' && text[1] == '\\' {
      PlainBackslashesSuffix(text, 2);
      ReadEscaped(text[2..], rest);
      assert text == ['\\', '\\'] + text[2..];
      ReadEscapedPair(text[2..], rest);
    } else {
      PlainBackslashesSuffix(text, 1);
      ReadEscaped(text[1..], rest);
      assert text == [text[0]] + text[1..];
      if text[0] == '"' {
        ReadEscapedQuote(text[1..], rest);
      } else {
        ReadEscapedPlain(text[0], text[1..], rest);
      }
    }
  }

  /** A quoted word is written with both quotes escaped and its letters unchanged. */
  lemma QuotedLabel()
    ensures VertexAttr("\"hi\"") == " [label=\"\\\"hi\\\"\"]"
  {
    var quote, word := "\"", "hi";
    assert Escape(quote) == "\\\"" by {
      assert quote[1..] == [];
    }
    EscapeNoQuote(word);
    EscapeConcat(word, quote);
    var tail := Escape(word + quote);
    assert tail == "hi\\\"";
    EscapeConcat(quote, word + quote);
    assert quote + (word + quote) == "\"hi\"";
    assert Escape("\"hi\"") == "\\\"" + tail;
  }

  /**
   * A label ending in a backslash turns its own closing quote into an
   * escaped quote, so the reader runs past it.
   */
  lemma TrailingBackslash()
    ensures var text := "a\\";
            ReadQuoted(Escape(text) + "\"]") != Some((text, "]"))
  {
    assert Escape("a\\") == "a\\" by {
      EscapeNoQuote("a\\");
    }
    assert ReadQuoted("]") == None;
    assert ReadQuoted("\\\"]") == None;
    assert ReadQuoted("a\\\"]") == None;
  }

  /**
   * A backslash before a newline, as in the label of `{"a": "x\\", "b": 1}`,
   * is read as a line continuation, so both characters are lost.
   */
  lemma BackslashNewline()
    ensures var text := "x\\\nb";
            Escape(text) == text && ReadQuoted(Escape(text) + "\"") == Some(("xb", ""))
  {
    var text := "x\\\nb";
    EscapeNoQuote(text);
    var s := text + "\"";
    assert s[1..][2..] == "b\"" && s[1..][2..][1..] == "\"";
    assert ReadQuoted("b\"") == Some(("b", ""));
    assert s[1..][0] == '\\' && s[1..][1] == '\n';
    assert ReadQuoted(s[1..]) == Some(("b", ""));
    assert s[0] == 'x' && ['x'] + "b" == "xb";
    assert ReadQuoted(s) == Some(("xb", ""));
  }

  /**
   * A backslash before a quote is written as a doubled backslash and the
   * quote, which the reader takes as a kept pair and a closing quote.
   */
  lemma BackslashQuote()
    ensures var text := "\\\"";
            ReadQuoted(Escape(text) + "\"") == Some(("\\\\", "\""))
  {
    assert Escape("\\\"") == "\\\\\"";
    var s := "\\\\\"\"";
    assert s[2..] == "\"\"" && s[2..][1..] == "\"";
    assert ReadQuoted(s[2..]) == Some(([], "\""));
    assert s[0] == '\\' && s[1] == '\\' && ['\\', '\\'] + [] == "\\\\";
  }
}
