/** Shell escaping as Python's `shlex.quote` does it, and, as its partner, a
    model of how a POSIX shell splits a command line into words. */
module ShellQuote {
  import opened Common

  /** The characters `shlex.quote` leaves alone: ASCII letters, digits and
      `_@%+=:,./-`. */
  predicate SafeChar(c: char) {
    || ('a' <= c <= 'z') || ('A' <= c <= 'Z') || ('0' <= c <= '9')
    || c == '_' || c == '@' || c == '%' || c == '+' || c == '='
    || c == ':' || c == ',' || c == '.' || c == '/' || c == '-'
  }

  predicate AllSafe(s: string) {
    forall i :: 0 <= i < |s| ==> SafeChar(s[i])
  }

  /** A non-empty string of safe characters: the shell reads it as one word. */
  predicate SafeWord(s: string) {
    s != [] && AllSafe(s)
  }

  /** Every `'` replaced by `'"'"'` (`s.replace("'", "'\"'\"'")`). */
  function Escape(s: string): string {
    if s == [] then []
    else (if s[0] == '\'' then "'\"'\"'" else [s[0]]) + Escape(s[1..])
  }

  /** `shlex.quote(s)`. */
  function Quote(s: string): string {
    if s == [] then "''"
    else if AllSafe(s) then s
    else "'" + Escape(s) + "'"
  }

  /** The lexer's state inside one word. */
  datatype Mode = Plain | InSingle | InDouble

  /** Reads one shell word from the start of `s` in mode `m`, having collected
      `acc` so far: returns the word and what follows it (the rest begins with
      a blank or is empty). Unquoted characters must be safe ones; inside
      double quotes `\`, `$` and a backquote are refused (they would not be
      literal there); an unterminated quote is an error. */
  function Lex(s: string, m: Mode, acc: string): (r: Option<(string, string)>)
    ensures r.Some? ==> |r.value.1| <= |s|
    ensures r.Some? && (m != Plain || (s != [] && s[0] != ' ')) ==> |r.value.1| < |s|
    decreases |s|
  {
    match m
    case Plain =>
      if s == [] || s[0] == ' ' then Some((acc, s))
      else if s[0] == '\'' then Lex(s[1..], InSingle, acc)
      else if s[0] == '"' then Lex(s[1..], InDouble, acc)
      else if SafeChar(s[0]) then Lex(s[1..], Plain, acc + [s[0]])
      else None
    case InSingle =>
      if s == [] then None
      else if s[0] == '\'' then Lex(s[1..], Plain, acc)
      else Lex(s[1..], InSingle, acc + [s[0]])
    case InDouble =>
      if s == [] then None
      else if s[0] == '"' then Lex(s[1..], Plain, acc)
      else if s[0] == '\\' || s[0] == '$' || s[0] == '`' then None
      else Lex(s[1..], InDouble, acc + [s[0]])
  }

  /** The words of a command line: blanks separate words, quotes only group. */
  function Words(s: string): Option<seq<string>>
    decreases |s|
  {
    if s == [] then Some([])
    else if s[0] == ' ' then Words(s[1..])
    else match Lex(s, Plain, [])
      case None => None
      case Some((w, rest)) => Prepend(w, Words(rest))
  }

  function Prepend(w: string, ws: Option<seq<string>>): Option<seq<string>> {
    match ws
    case None => None
    case Some(s) => Some([w] + s)
  }

  /** `ws` followed by the words `rest` holds. */
  function AppendWords(ws: seq<string>, rest: Option<seq<string>>): Option<seq<string>> {
    match rest
    case None => None
    case Some(s) => Some(ws + s)
  }

  /** A string that ends a word: nothing, or a blank. */
  predicate WordEnd(r: string) {
    r == [] || r[0] == ' '
  }

  lemma {:induction false} SafeLex(x: string, r: string, acc: string)
    requires AllSafe(x) && WordEnd(r)
    ensures Lex(x + r, Plain, acc) == Some((acc + x, r))
    decreases |x|
  {
    if x == [] {
      assert x + r == r && acc + x == acc;
    } else {
      assert (x + r)[1..] == x[1..] + r;
      SafeLex(x[1..], r, acc + [x[0]]);
      assert acc + [x[0]] + x[1..] == acc + x;
    }
  }

  /** Inside single quotes the escaped text reads back as the original. */
  lemma {:induction false} EscapeLex(x: string, r: string, acc: string)
    ensures Lex(Escape(x) + "'" + r, InSingle, acc) == Lex(r, Plain, acc + x)
    decreases |x|
  {
    if x == [] {
      ClosingQuoteLex(r, acc);
      assert acc + x == acc;
    } else {
      EscapeLexStep(x, r, acc);
      EscapeLex(x[1..], r, acc + [x[0]]);
      assert acc + [x[0]] + x[1..] == acc + x;
    }
  }

  /** The closing quote ends the quoted part. */
  lemma ClosingQuoteLex(r: string, acc: string)
    ensures Lex(Escape([]) + "'" + r, InSingle, acc) == Lex(r, Plain, acc)
  {
    assert Escape([]) + "'" + r == "'" + r;
    assert ("'" + r)[1..] == r;
  }

  /** The escaped form of the first character reads back as that character. */
  lemma EscapeLexStep(x: string, r: string, acc: string)
    requires x != []
    ensures Lex(Escape(x) + "'" + r, InSingle, acc) == Lex(Escape(x[1..]) + "'" + r, InSingle, acc + [x[0]])
  {
    var tail := Escape(x[1..]) + "'" + r;
    EscapeCons(x, r);
    if x[0] == '\'' {
      EscapedQuoteLex(tail, acc);
    } else {
      QuotedCharLex(x[0], tail, acc);
    }
  }

  lemma EscapeCons(x: string, r: string)
    requires x != []
    ensures Escape(x) + "'" + r
         == (if x[0] == '\'' then "'\"'\"'" else [x[0]]) + (Escape(x[1..]) + "'" + r)
  {
  }

  /** Inside single quotes any character but `'` is read as it is. */
  lemma QuotedCharLex(c: char, tail: string, acc: string)
    requires c != '\''
    ensures Lex([c] + tail, InSingle, acc) == Lex(tail, InSingle, acc + [c])
  {
    assert ([c] + tail)[1..] == tail;
  }

  /** Inside single quotes, `'"'"'` closes the quotes, reads one `'` in
      double quotes and reopens them. */
  lemma EscapedQuoteLex(tail: string, acc: string)
    ensures Lex("'\"'\"'" + tail, InSingle, acc) == Lex(tail, InSingle, acc + "'")
  {
    var s := "'\"'\"'" + tail;
    assert s[1..] == "\"'\"'" + tail;
    assert s[2..] == "'\"'" + tail;
    assert s[3..] == "\"'" + tail;
    assert s[4..] == "'" + tail;
    assert s[5..] == tail;
    calc {
      Lex(s, InSingle, acc);
      Lex(s[1..], Plain, acc);
      Lex(s[2..], InDouble, acc);
      Lex(s[3..], InDouble, acc + "'");
      Lex(s[4..], Plain, acc + "'");
      Lex(s[5..], InSingle, acc + "'");
    }
  }

  /** The shell reads a quoted string back as exactly the original string, as
      one word, up to the next blank. */
  lemma QuoteLex(x: string, r: string)
    requires WordEnd(r)
    ensures Lex(Quote(x) + r, Plain, []) == Some((x, r))
  {
    if x == [] {
      EmptyQuoteLex(r);
    } else if AllSafe(x) {
      SafeLex(x, r, []);
      assert [] + x == x;
    } else {
      EscapedLex(x, r);
    }
  }

  lemma EmptyQuoteLex(r: string)
    requires WordEnd(r)
    ensures Lex("''" + r, Plain, []) == Some(([], r))
  {
    var s := "''" + r;
    assert s[0] == '\'' && s[1] == '\'';
    assert s[1..][1..] == r;
    assert Lex(s, Plain, []) == Lex(s[1..], InSingle, []);
    assert Lex(s[1..], InSingle, []) == Lex(r, Plain, []);
  }

  lemma EscapedLex(x: string, r: string)
    requires WordEnd(r)
    ensures Lex("'" + Escape(x) + "'" + r, Plain, []) == Some((x, r))
  {
    var s := "'" + Escape(x) + "'" + r;
    assert s[0] == '\'';
    assert s[1..] == Escape(x) + "'" + r;
    assert Lex(s, Plain, []) == Lex(s[1..], InSingle, []);
    EscapeLex(x, r, []);
    SafeLex([], r, x);
    assert [] + x == x && [] + r == r && x + [] == x;
  }

  /** A quoted string in front of a blank or the end is one word, the
      original string. */
  lemma WordsQuote(x: string, r: string)
    requires WordEnd(r)
    ensures Words(Quote(x) + r) == Prepend(x, Words(r))
  {
    QuoteLex(x, r);
    var q := Quote(x);
    assert q != [] && q[0] != ' ';
    assert (q + r)[0] == q[0];
  }

  /** Round trip: the shell reads `shlex.quote(x)` as the single word x. */
  lemma QuoteRoundTrip(x: string)
    ensures Words(Quote(x)) == Some([x])
  {
    WordsQuote(x, []);
    assert Quote(x) + [] == Quote(x);
    assert [x] + [] == [x];
  }

  /** A safe word is left as it is by quoting. */
  lemma QuoteSafeWord(x: string)
    requires SafeWord(x)
    ensures Quote(x) == x
  {
  }

  /** `' '.join(s)`. */
  function JoinSpace(s: seq<string>): string {
    if s == [] then ""
    else if |s| == 1 then s[0]
    else s[0] + " " + JoinSpace(s[1..])
  }

  /** `[shlex.quote(x) for x in xs]`. */
  function QuoteAll(xs: seq<string>): seq<string> {
    if xs == [] then [] else [Quote(xs[0])] + QuoteAll(xs[1..])
  }

  /** Words of blank-separated quoted strings, followed by the end or a blank:
      exactly the original strings, in order, then the words that follow. */
  lemma {:induction false} WordsJoinQuoted(xs: seq<string>, r: string)
    requires WordEnd(r)
    ensures Words(JoinSpace(QuoteAll(xs)) + r) == AppendWords(xs, Words(r))
    decreases |xs|
  {
    if xs == [] {
      assert JoinSpace(QuoteAll(xs)) + r == r;
      AppendNothing(Words(r));
    } else if |xs| == 1 {
      assert JoinSpace(QuoteAll(xs)) == Quote(xs[0]);
      assert xs == [xs[0]];
      WordsQuote(xs[0], r);
      PrependIsAppend(xs[0], Words(r));
    } else {
      var rest := JoinSpace(QuoteAll(xs[1..])) + r;
      JoinQuotedCons(xs, r);
      WordsQuote(xs[0], " " + rest);
      assert (" " + rest)[1..] == rest;
      WordsJoinQuoted(xs[1..], r);
      AppendCons(xs, Words(r));
    }
  }

  lemma JoinQuotedCons(xs: seq<string>, r: string)
    requires |xs| > 1
    ensures JoinSpace(QuoteAll(xs)) + r == Quote(xs[0]) + (" " + (JoinSpace(QuoteAll(xs[1..])) + r))
  {
    var t := QuoteAll(xs[1..]);
    var a := Quote(xs[0]);
    QuoteAllCons(xs);
    JoinSpaceCons(a, t);
    Reassociate(a, JoinSpace(t), r);
  }

  lemma JoinSpaceCons(a: string, t: seq<string>)
    requires t != []
    ensures JoinSpace([a] + t) == a + " " + JoinSpace(t)
  {
    assert ([a] + t)[1..] == t;
  }

  lemma QuoteAllCons(xs: seq<string>)
    requires xs != []
    ensures QuoteAll(xs) == [Quote(xs[0])] + QuoteAll(xs[1..])
  {
  }

  lemma Reassociate(a: string, b: string, r: string)
    ensures (a + " " + b) + r == a + (" " + (b + r))
  {
  }

  lemma AppendNothing(w: Option<seq<string>>)
    ensures AppendWords([], w) == w
  {
    match w {
      case None =>
      case Some(ws) => assert [] + ws == ws;
    }
  }

  lemma PrependIsAppend(x: string, w: Option<seq<string>>)
    ensures Prepend(x, w) == AppendWords([x], w)
  {
  }

  lemma AppendCons(xs: seq<string>, w: Option<seq<string>>)
    requires xs != []
    ensures Prepend(xs[0], AppendWords(xs[1..], w)) == AppendWords(xs, w)
  {
    match w {
      case None =>
      case Some(ws) => assert [xs[0]] + (xs[1..] + ws) == xs + ws;
    }
  }

  /** Round trip for a list: the shell reads the blank-joined quoted strings
      as exactly those strings. */
  lemma QuoteAllRoundTrip(xs: seq<string>)
    ensures Words(JoinSpace(QuoteAll(xs))) == Some(xs)
  {
    WordsJoinQuoted(xs, []);
    assert JoinSpace(QuoteAll(xs)) + [] == JoinSpace(QuoteAll(xs));
    assert xs + [] == xs;
  }
}
