/** What splitLine computes, as functions on the line's text: the tokens it
    cuts at unquoted spaces, and the argument each token becomes. The
    in-place version that overwrites the command buffer is
    Parser.CmdParser.SplitLine, which is proved to produce exactly Args. */
module Tokenizer {
  import opened Types

  /** The quoting state of the scan: inside a quoted region, and the quote
      character that opened it (the source leaves the marker unset until a
      quote opens; its value is never consulted outside a region). */
  datatype Quote = Quote(inside: bool, marker: char)

  const START: Quote := Quote(false, ' ')

  predicate IsQuoteChar(c: char) { c == '"' || c == '\'' }

  /** The state after one character that is not an unquoted space: a quote
      opens a region only from outside, and only the opening character
      closes it. */
  function Step(q: Quote, c: char): Quote
  {
    if !q.inside && IsQuoteChar(c) then Quote(true, c)
    else if q.inside && c == q.marker then Quote(false, q.marker)
    else q
  }

  /** How many characters the scan passes before an unquoted space (or the
      end of the line) stops it. */
  function TokenLen(s: string, q: Quote): (n: nat)
    ensures n <= |s|
    ensures n < |s| ==> s[n] == ' '
  {
    if s == [] then 0
    else if s[0] == ' ' && !q.inside then 0
    else 1 + TokenLen(s[1..], Step(q, s[0]))
  }

  /** The quoting state after scanning all of s. */
  function FinalQuote(s: string, q: Quote): Quote
  {
    if s == [] then q else FinalQuote(s[1..], Step(q, s[0]))
  }

  /** The line with its leading spaces removed (the run the source blanks). */
  function TrimSpaces(s: string): (r: string)
    ensures |r| <= |s|
    ensures r == [] || r[0] != ' '
  {
    if s != [] && s[0] == ' ' then TrimSpaces(s[1..]) else s
  }

  /** The tokens of a line, left to right: each runs up to the next unquoted
      space; the run of spaces after it is one delimiter; nothing follows
      trailing spaces. */
  function Tokens(s: string): seq<string>
    decreases |s|
  {
    if s == [] then []
    else
      var e := TokenLen(s, START);
      if e == |s| then [s] else [s[..e]] + Tokens(TrimSpaces(s[e + 1..]))
  }

  /** A token the literal parser receives: it starts with a digit, '[', or a
      quote character. */
  predicate LooksLiteral(tok: string)
  {
    tok != [] && ('0' <= tok[0] <= '9' || tok[0] == '[' || IsQuoteChar(tok[0]))
  }

  /** The argument a token becomes: the literal parser's result, or the
      token itself as a String. */
  function Classify(tok: string, parse: string -> Attr): (a: Attr)
    ensures !LooksLiteral(tok) ==> a == Str(tok)
  {
    if LooksLiteral(tok) then parse(tok) else Str(tok)
  }

  /** The argument list splitLine appends for a line. */
  function Args(s: string, parse: string -> Attr): (r: seq<Attr>)
    ensures |r| == |Tokens(s)|
  {
    seq(|Tokens(s)|, k requires 0 <= k < |Tokens(s)| => Classify(Tokens(s)[k], parse))
  }

  // ---------------------------------------------------------------------
  // Properties of the tokenizer

  /** A non-empty line always yields a first token, so processLine may read
      listArgs[0]. */
  lemma TokensNonEmpty(s: string)
    requires s != []
    ensures |Tokens(s)| >= 1
  {
  }

  /** A leading space makes the first token the empty string, which then
      becomes the String argument "". */
  lemma LeadingSpaceGivesEmptyToken(s: string, parse: string -> Attr)
    requires s != [] && s[0] == ' '
    ensures Tokens(s)[0] == []
    ensures Args(s, parse)[0] == Str([])
  {
  }

  /** Every token after the first is non-empty and does not start with a
      space. */
  lemma {:induction false} LaterTokenNonEmpty(s: string, k: nat)
    requires 1 <= k < |Tokens(s)|
    ensures Tokens(s)[k] != [] && Tokens(s)[k][0] != ' '
    decreases k
  {
    var e := TokenLen(s, START);
    var rest := TrimSpaces(s[e + 1..]);
    var ts := Tokens(rest);
    assert Tokens(s) == [s[..e]] + ts;
    assert Tokens(s)[k] == ts[k - 1];
    if k > 1 {
      LaterTokenNonEmpty(rest, k - 1);
    } else {
      assert rest != [] && rest[0] != ' ';
      assert TokenLen(rest, START) > 0;
    }
  }

  /** No token contains an unquoted space: scanning a token alone runs to
      its end. */
  lemma {:induction false} TokenHasNoUnquotedSpace(s: string, k: nat)
    requires 0 <= k < |Tokens(s)|
    ensures TokenLen(Tokens(s)[k], START) == |Tokens(s)[k]|
    decreases k
  {
    var e := TokenLen(s, START);
    TokenLenOfPrefix(s, START);
    if e < |s| {
      var rest := TrimSpaces(s[e + 1..]);
      assert Tokens(s) == [s[..e]] + Tokens(rest);
      if k > 0 {
        assert Tokens(s)[k] == Tokens(rest)[k - 1];
        TokenHasNoUnquotedSpace(rest, k - 1);
      }
    } else {
      assert s[..e] == s;
    }
  }

  /** The scan of the token prefix alone stops at its end. */
  lemma {:induction false} TokenLenOfPrefix(s: string, q: Quote)
    ensures TokenLen(s[..TokenLen(s, q)], q) == TokenLen(s, q)
  {
    if s != [] && !(s[0] == ' ' && !q.inside) {
      TokenLenOfPrefix(s[1..], Step(q, s[0]));
      assert s[..TokenLen(s, q)][1..] == s[1..][..TokenLen(s[1..], Step(q, s[0]))];
    }
  }

  /** Scanning a closed prefix then continuing: the token extends into r
      exactly as far as a scan of r started in the prefix's final state. */
  lemma {:induction false} TokenLenAppend(t: string, r: string, q: Quote)
    requires TokenLen(t, q) == |t|
    ensures TokenLen(t + r, q) == |t| + TokenLen(r, FinalQuote(t, q))
  {
    if t != [] {
      assert (t + r)[1..] == t[1..] + r;
      TokenLenAppend(t[1..], r, Step(q, t[0]));
    } else {
      assert t + r == r;
    }
  }

  /** A quote closes only on the character that opened it: spaces and the
      other quote character inside the region do not end the token. */
  lemma {:induction false} QuotedRegionIsOneToken(q: char, body: string, rest: string)
    requires IsQuoteChar(q) && q !in body
    ensures TokenLen([q] + body + [q] + rest, START) == |body| + 2 + TokenLen(rest, Quote(false, q))
  {
    var s := [q] + body + [q] + rest;
    assert s[1..] == body + ([q] + rest);
    InsideRegion(q, body, rest);
  }

  lemma {:induction false} InsideRegion(q: char, body: string, rest: string)
    requires q !in body
    ensures TokenLen(body + ([q] + rest), Quote(true, q)) == |body| + 1 + TokenLen(rest, Quote(false, q))
  {
    if body == [] {
      assert body + ([q] + rest) == [q] + rest;
      assert ([q] + rest)[1..] == rest;
    } else {
      assert (body + ([q] + rest))[1..] == body[1..] + ([q] + rest);
      assert Step(Quote(true, q), body[0]) == Quote(true, q);
      InsideRegion(q, body[1..], rest);
    }
  }

  // ---------------------------------------------------------------------
  // Joining tokens with single spaces and splitting again

  /** A token that can stand between single spaces: non-empty, no unquoted
      space, and every quoted region it opens is closed. */
  predicate IsPlainToken(t: string)
  {
    t != [] && TokenLen(t, START) == |t| && !FinalQuote(t, START).inside
  }

  function Join(ts: seq<string>): string
  {
    if ts == [] then []
    else if |ts| == 1 then ts[0]
    else ts[0] + " " + Join(ts[1..])
  }

  function Spaces(n: nat): (s: string)
    ensures |s| == n
  {
    if n == 0 then [] else [' '] + Spaces(n - 1)
  }

  /** A space after a closed token ends it, whatever follows. */
  lemma TokenEndsAtSpace(t: string, r: string)
    requires IsPlainToken(t)
    ensures TokenLen(t + " " + r, START) == |t|
  {
    assert t + " " + r == t + (" " + r);
    TokenLenAppend(t, " " + r, START);
  }

  /** Splitting the single-space join of plain tokens gives them back, in
      order. */
  lemma {:induction false} SplitJoin(ts: seq<string>)
    requires forall k :: 0 <= k < |ts| ==> IsPlainToken(ts[k])
    ensures Tokens(Join(ts)) == ts
  {
    if |ts| == 1 {
      assert Join(ts) == ts[0];
    } else if |ts| > 1 {
      var t, rest := ts[0], Join(ts[1..]);
      var s := t + " " + rest;
      TokenEndsAtSpace(t, rest);
      assert s[..|t|] == t;
      assert s[|t| + 1..] == rest;
      SplitJoin(ts[1..]);
      assert rest != [] && rest[0] == ts[1][0] by {
        JoinStartsWithFirst(ts[1..]);
      }
      assert ts == [t] + ts[1..];
    }
  }

  lemma JoinStartsWithFirst(ts: seq<string>)
    requires |ts| >= 1 && ts[0] != []
    ensures Join(ts) != [] && Join(ts)[0] == ts[0][0]
  {
  }

  /** A run of spaces is one delimiter, and spaces at the end of a line
      yield no empty trailing token. */
  lemma SpaceRunIsOneDelimiter(t: string, n: nat, r: string)
    requires IsPlainToken(t) && n >= 1 && (r == [] || r[0] != ' ')
    ensures Tokens(t + Spaces(n) + r) == [t] + Tokens(r)
    ensures Tokens(t + Spaces(n)) == [t]
  {
    var sp := Spaces(n);
    assert sp == " " + Spaces(n - 1);
    TrailingRun(t, n, r);
    TrailingRun(t, n, []);
    assert t + sp + [] == t + sp;
  }

  lemma TrailingRun(t: string, n: nat, r: string)
    requires IsPlainToken(t) && n >= 1 && (r == [] || r[0] != ' ')
    ensures Tokens(t + Spaces(n) + r) == [t] + Tokens(r)
  {
    var u := Spaces(n - 1) + r;
    assert t + Spaces(n) + r == t + " " + u by {
      assert Spaces(n) == " " + Spaces(n - 1);
    }
    assert TrimSpaces(u) == r by {
      TrimRun(n - 1, r);
    }
    assert Tokens(t + " " + u) == [t] + Tokens(TrimSpaces(u)) by {
      SplitAfterToken(t, u);
    }
  }

  /** After a plain token and a space, the rest of the line is split on its
      own, once its leading spaces are dropped. */
  lemma SplitAfterToken(t: string, u: string)
    requires IsPlainToken(t)
    ensures Tokens(t + " " + u) == [t] + Tokens(TrimSpaces(u))
  {
    var s := t + " " + u;
    TokenEndsAtSpace(t, u);
    assert s[..|t|] == t;
    assert s[|t| + 1..] == u;
  }

  lemma {:induction false} TrimRun(n: nat, r: string)
    requires r == [] || r[0] != ' '
    ensures TrimSpaces(Spaces(n) + r) == r
  {
    if n > 0 {
      assert (Spaces(n) + r)[1..] == Spaces(n - 1) + r;
      TrimRun(n - 1, r);
    } else {
      assert Spaces(0) + r == r;
    }
  }

  // ---------------------------------------------------------------------
  // Facts the in-place scan relies on

  /** The argument list of a line that goes on after its first token: the
      first token's argument, then the arguments of the rest once its
      leading spaces are dropped. */
  lemma ArgsCons(s: string, parse: string -> Attr)
    requires TokenLen(s, START) < |s|
    ensures Args(s, parse) == [Classify(s[..TokenLen(s, START)], parse)]
      + Args(TrimSpaces(s[TokenLen(s, START) + 1..]), parse)
  {
  }

  /** The argument list of a line that is one token. */
  lemma ArgsSingle(s: string, parse: string -> Attr)
    requires s != [] && TokenLen(s, START) == |s|
    ensures Args(s, parse) == [Classify(s, parse)]
  {
  }

  /** Dropping the leading spaces of s skips exactly its first run of r
      spaces. */
  lemma {:induction false} TrimSkip(s: string, r: nat)
    requires r <= |s| && (forall k :: 0 <= k < r ==> s[k] == ' ')
    requires r == |s| || s[r] != ' '
    ensures TrimSpaces(s) == s[r..]
  {
    if r > 0 {
      TrimSkip(s[1..], r - 1);
    }
  }
}
