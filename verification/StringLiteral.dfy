/** String literals in the deparsed text, gcDeparseStringLiteral of
    contrib/gauss_connector/deparse.cpp, against the two ways a server may read them: with
    standard_conforming_strings on a backslash is a plain character, with it off, and in E''
    literals always, it starts an escape.
 */
module StringLiteral {
  import opened Wrappers

  const QUOTE := '\''
  const BACKSLASH := '\\'

  predicate Doubled(ch: char) {
    ch == QUOTE || ch == BACKSLASH
  }

  function Body(val: string): string {
    if val == [] then [] else (if Doubled(val[0]) then [val[0]] else []) + [val[0]] + Body(val[1..])
  }

  function Literal(val: string): string {
    (if BACKSLASH in val then ['E', QUOTE] else [QUOTE]) + Body(val) + [QUOTE]
  }

  lemma {:induction false} BodySnoc(val: string, ch: char)
    ensures Body(val + [ch]) == Body(val) + (if Doubled(ch) then [ch, ch] else [ch])
  {
    if val == [] {
      assert ([] + [ch])[1..] == [];
    } else {
      assert (val + [ch])[1..] == val[1..] + [ch];
      BodySnoc(val[1..], ch);
    }
  }

  /** gcDeparseStringLiteral */
  method DeparseStringLiteral(buf: string, val: string) returns (out: string)
    ensures out == buf + Literal(val)
  {
    out := buf;
    if BACKSLASH in val {
      out := out + ['E'];
    }
    out := out + [QUOTE];
    ghost var open := if BACKSLASH in val then ['E', QUOTE] else [QUOTE];
    for i := 0 to |val|
      invariant out == buf + (open + Body(val[..i]))
    {
      BodySnoc(val[..i], val[i]);
      assert val[..i + 1] == val[..i] + [val[i]];
      if Doubled(val[i]) {
        out := out + [val[i]];
      }
      out := out + [val[i]];
    }
    assert val[..|val|] == val;
    out := out + [QUOTE];
  }

  /** A server's lexer inside a literal: the value, and the text behind the closing quote. The
      only escape it needs to know here is the doubled backslash. */
  function ReadBody(text: string, escapes: bool): Option<(string, string)> {
    if text == [] then None
    else if text[0] == QUOTE then
      if |text| > 1 && text[1] == QUOTE then
        var r :- ReadBody(text[2..], escapes);
        Some(([QUOTE] + r.0, r.1))
      else Some(([], text[1..]))
    else if text[0] == BACKSLASH && escapes then
      if |text| > 1 && text[1] == BACKSLASH then
        var r :- ReadBody(text[2..], escapes);
        Some(([BACKSLASH] + r.0, r.1))
      else None
    else
      var r :- ReadBody(text[1..], escapes);
      Some(([text[0]] + r.0, r.1))
  }

  function ReadLiteral(text: string, conforming: bool): Option<(string, string)> {
    if |text| > 1 && text[0] == 'E' && text[1] == QUOTE then ReadBody(text[2..], true)
    else if |text| > 0 && text[0] == QUOTE then ReadBody(text[1..], !conforming)
    else None
  }

  lemma {:induction false} BodyReadsBack(val: string, rest: string, escapes: bool)
    requires BACKSLASH in val ==> escapes
    requires rest != [] ==> rest[0] != QUOTE
    ensures ReadBody(Body(val) + ([QUOTE] + rest), escapes) == Some((val, rest))
  {
    var text := Body(val) + ([QUOTE] + rest);
    if val == [] {
      assert text == [QUOTE] + rest;
    } else {
      var tail := Body(val[1..]) + ([QUOTE] + rest);
      BodyReadsBack(val[1..], rest, escapes);
      assert val == [val[0]] + val[1..];
      if Doubled(val[0]) {
        assert text == [val[0], val[0]] + tail;
        assert text[2..] == tail;
      } else {
        assert text == [val[0]] + tail;
      }
    }
  }

  /** Either kind of server reads the value back. */
  lemma RoundTrip(val: string, rest: string, conforming: bool)
    requires rest != [] ==> rest[0] != QUOTE
    ensures ReadLiteral(Literal(val) + rest, conforming) == Some((val, rest))
  {
    var text := Literal(val) + rest;
    var tail := Body(val) + ([QUOTE] + rest);
    if BACKSLASH in val {
      assert text == ['E', QUOTE] + tail;
      BodyReadsBack(val, rest, true);
    } else {
      assert text == [QUOTE] + tail;
      BodyReadsBack(val, rest, !conforming);
    }
  }

  /** Without the E form the two kinds of server would disagree. */
  lemma PlainFormIsAmbiguous()
    ensures ReadLiteral([QUOTE] + Body([BACKSLASH]) + [QUOTE], true) == Some(([BACKSLASH, BACKSLASH], []))
    ensures ReadLiteral([QUOTE] + Body([BACKSLASH]) + [QUOTE], false) == Some(([BACKSLASH], []))
  {
    var text := [QUOTE] + Body([BACKSLASH]) + [QUOTE];
    assert [BACKSLASH][1..] == [];
    assert Body([]) == [] && Body([BACKSLASH]) == [BACKSLASH, BACKSLASH];
    assert text == [QUOTE, BACKSLASH, BACKSLASH, QUOTE];
    assert text[1..] == [BACKSLASH, BACKSLASH, QUOTE];
    assert text[1..][1..] == [BACKSLASH, QUOTE] && text[1..][2..] == [QUOTE];
    assert [BACKSLASH, QUOTE][1..] == [QUOTE] && [QUOTE][1..] == [];
    BodyReadsBack([], [], false);
    BodyReadsBack([], [], true);
    assert Body([]) + ([QUOTE] + []) == [QUOTE];
    assert [BACKSLASH] + [] == [BACKSLASH];
    assert ReadBody([BACKSLASH, QUOTE], false) == Some(([BACKSLASH], []));
    assert [BACKSLASH] + [BACKSLASH] == [BACKSLASH, BACKSLASH];
    assert ReadBody(text[1..], false) == Some(([BACKSLASH, BACKSLASH], []));
    assert ReadBody(text[1..], true) == Some(([BACKSLASH], []));
  }
}
