/** The statement splitter of the migration runner (src/shared/kysely/migration-runner.ts).

    The reference is a token grammar: a text is cut into blocks, literals, comments,
    terminators and single characters by looking for where each construct ends.  The
    method below is the runner's loop: one index, two flags, one accumulator. */
module SqlSplitter {

  // ----- Tokens -----

  datatype Token =
    | Text(c: char)           // a character outside every context
    | Terminator              // ';'
    | Block(text: string)     // "$$" up to the next "$$", or to the end
    | Literal(text: string)   // "'" up to a quote that is not doubled, or to the end
    | Comment(text: string)   // "--" up to and including the newline, or to the end
  {
    function Source(): (s: string)
      ensures this.Text? || this.Terminator? ==> |s| == 1
    {
      match this
      case Text(c) => [c]
      case Terminator => ";"
      case Block(text) => text
      case Literal(text) => text
      case Comment(text) => text
    }
  }

  predicate Doubled(s: string, c: char) {
    |s| >= 2 && s[0] == c && s[1] == c
  }

  /** Where a construct ends in the text that follows its opening, and whether it was closed there. */
  datatype Extent = Extent(length: nat, closed: bool)

  function BlockExtent(s: string): (e: Extent)
    ensures e.length <= |s|
    ensures !e.closed ==> e.length == |s|
  {
    if s == "" then Extent(0, false)
    else if Doubled(s, '$') then Extent(2, true)
    else var e := BlockExtent(s[1..]); Extent(e.length + 1, e.closed)
  }

  function LiteralExtent(s: string): (e: Extent)
    ensures e.length <= |s|
    ensures !e.closed ==> e.length == |s|
  {
    if s == "" then Extent(0, false)
    else if Doubled(s, '\'') then
      var e := LiteralExtent(s[2..]); Extent(e.length + 2, e.closed)
    else if s[0] == '\'' then Extent(1, true)
    else var e := LiteralExtent(s[1..]); Extent(e.length + 1, e.closed)
  }

  function LineExtent(s: string): (e: Extent)
    ensures e.length <= |s|
    ensures !e.closed ==> e.length == |s|
  {
    if s == "" then Extent(0, false)
    else if s[0] == '\n' then Extent(1, true)
    else var e := LineExtent(s[1..]); Extent(e.length + 1, e.closed)
  }

  function NextToken(s: string): (t: Token)
    requires s != ""
    ensures 0 < |t.Source()| <= |s| && t.Source() == s[..|t.Source()|]
  {
    if Doubled(s, '$') then Block(s[..2 + BlockExtent(s[2..]).length])
    else if s[0] == '\'' then Literal(s[..1 + LiteralExtent(s[1..]).length])
    else if Doubled(s, '-') then Comment(s[..2 + LineExtent(s[2..]).length])
    else if s[0] == ';' then Terminator
    else Text(s[0])
  }

  function Tokens(s: string): seq<Token>
    decreases |s|
  {
    if s == "" then [] else var t := NextToken(s); [t] + Tokens(s[|t.Source()|..])
  }

  function Flatten(ts: seq<Token>): string {
    if ts == [] then "" else ts[0].Source() + Flatten(ts[1..])
  }

  lemma ConcatIsAssociative(a: string, b: string, c: string)
    ensures a + (b + c) == a + b + c
  {
  }

  lemma FlattenCons(t: Token, ts: seq<Token>)
    ensures Flatten([t] + ts) == t.Source() + Flatten(ts)
  {
    assert ([t] + ts)[1..] == ts;
  }

  lemma {:induction false} FlattenConcat(a: seq<Token>, b: seq<Token>)
    ensures Flatten(a + b) == Flatten(a) + Flatten(b)
  {
    if a == [] {
      assert a + b == b;
    } else {
      var rest := a[1..];
      FlattenConcat(rest, b);
      assert a + b == [a[0]] + (rest + b);
      FlattenCons(a[0], rest + b);
      assert Flatten(a) == a[0].Source() + Flatten(rest);
      hide Flatten;
      ConcatIsAssociative(a[0].Source(), Flatten(rest), Flatten(b));
    }
  }

  // ----- Which token lists the lexer produces -----

  predicate Closed(t: Token) {
    match t
    case Text(_) => true
    case Terminator => true
    case Block(text) => |text| >= 2 && BlockExtent(text[2..]).closed
    case Literal(text) => |text| >= 1 && LiteralExtent(text[1..]).closed
    case Comment(text) => |text| >= 2 && LineExtent(text[2..]).closed
  }

  predicate WellFormed(t: Token) {
    match t
    case Text(c) => c != ';' && c != '\''
    case Terminator => true
    case Block(text) => Doubled(text, '$') && BlockExtent(text[2..]).length == |text| - 2
    case Literal(text) => |text| >= 1 && text[0] == '\'' && LiteralExtent(text[1..]).length == |text| - 1
    case Comment(text) => Doubled(text, '-') && LineExtent(text[2..]).length == |text| - 2
  }

  /** Text a, directly followed by text b, would be read as something else. */
  predicate Fuses(a: Token, b: Token) {
    var s := b.Source();
    s != "" &&
    match a
    case Text(c) => (c == '$' || c == '-') && s[0] == c
    case Literal(_) => s[0] == '\''
    case _ => false
  }

  predicate NoFusion(ts: seq<Token>) {
    forall i | 0 <= i < |ts| - 1 :: !Fuses(ts[i], ts[i + 1])
  }

  predicate Valid(ts: seq<Token>) {
    && NoFusion(ts)
    && (forall t | t in ts :: WellFormed(t))
    && (forall i | 0 <= i < |ts| - 1 :: Closed(ts[i]))
  }

  lemma {:induction false} BlockExtentTake(s: string)
    ensures BlockExtent(s[..BlockExtent(s).length]) == BlockExtent(s)
  {
    var n := BlockExtent(s).length;
    if s != "" && !Doubled(s, '$') {
      BlockExtentTake(s[1..]);
      assert s[..n][1..] == s[1..][..n - 1];
    }
  }

  lemma {:induction false} LiteralExtentTake(s: string)
    ensures var n := LiteralExtent(s).length;
            && LiteralExtent(s[..n]) == LiteralExtent(s)
            && (n < |s| ==> s[n] != '\'')
  {
    var n := LiteralExtent(s).length;
    if s == "" {
    } else if Doubled(s, '\'') {
      LiteralExtentTake(s[2..]);
      assert s[..n][2..] == s[2..][..n - 2];
    } else if s[0] != '\'' {
      LiteralExtentTake(s[1..]);
      assert s[..n][1..] == s[1..][..n - 1];
    }
  }

  lemma {:induction false} LineExtentTake(s: string)
    ensures LineExtent(s[..LineExtent(s).length]) == LineExtent(s)
  {
    var n := LineExtent(s).length;
    if s != "" && s[0] != '\n' {
      LineExtentTake(s[1..]);
      assert s[..n][1..] == s[1..][..n - 1];
    }
  }

  lemma {:induction false} BlockExtentAppend(s: string, t: string)
    requires BlockExtent(s).closed
    ensures BlockExtent(s + t) == BlockExtent(s)
  {
    if Doubled(s, '$') {
      assert Doubled(s + t, '$');
    } else {
      BlockExtentAppend(s[1..], t);
      assert (s + t)[1..] == s[1..] + t;
    }
  }

  lemma {:induction false} LiteralExtentAppend(s: string, t: string)
    requires LiteralExtent(s).closed && LiteralExtent(s).length == |s|
    requires t != "" ==> t[0] != '\''
    ensures LiteralExtent(s + t) == LiteralExtent(s)
  {
    if Doubled(s, '\'') {
      LiteralExtentAppend(s[2..], t);
      assert (s + t)[2..] == s[2..] + t;
    } else if s[0] == '\'' {
      assert s == "'";
    } else {
      LiteralExtentAppend(s[1..], t);
      assert (s + t)[1..] == s[1..] + t;
    }
  }

  lemma {:induction false} LineExtentAppend(s: string, t: string)
    requires LineExtent(s).closed
    ensures LineExtent(s + t) == LineExtent(s)
  {
    if s[0] != '\n' {
      LineExtentAppend(s[1..], t);
      assert (s + t)[1..] == s[1..] + t;
    }
  }

  lemma NextTokenIsWellFormed(s: string)
    requires s != ""
    ensures var t := NextToken(s); var n := |t.Source()|;
            && WellFormed(t)
            && (n < |s| ==> Closed(t))
            && (n < |s| && t.Literal? ==> s[n] != '\'')
            && (n < |s| && t.Text? && (t.c == '$' || t.c == '-') ==> s[1] != t.c)
  {
    if Doubled(s, '$') {
      var n := 2 + BlockExtent(s[2..]).length;
      BlockExtentTake(s[2..]);
      assert s[..n][2..] == s[2..][..n - 2];
    } else if s[0] == '\'' {
      var n := 1 + LiteralExtent(s[1..]).length;
      LiteralExtentTake(s[1..]);
      assert s[..n][1..] == s[1..][..n - 1];
    } else if Doubled(s, '-') {
      var n := 2 + LineExtent(s[2..]).length;
      LineExtentTake(s[2..]);
      assert s[..n][2..] == s[2..][..n - 2];
    }
  }

  /** The tokens of a text are the whole text, in order. */
  lemma {:induction false} TokensPartitionTheText(s: string)
    ensures Flatten(Tokens(s)) == s
    decreases |s|
  {
    if s != "" {
      var t := NextToken(s);
      var rest := s[|t.Source()|..];
      TokensPartitionTheText(rest);
      FlattenCons(t, Tokens(rest));
    }
  }

  /** Every token of a text ends where its construct ends, and none could be read together with the next. */
  lemma {:induction false} TokensAreValid(s: string)
    ensures Valid(Tokens(s))
    decreases |s|
  {
    if s != "" {
      var t := NextToken(s);
      var rest := s[|t.Source()|..];
      NextTokenIsWellFormed(s);
      TokensAreValid(rest);
      if rest != "" {
        assert Tokens(rest)[0].Source()[0] == rest[0];
        assert !Fuses(t, Tokens(rest)[0]);
      }
      ValidCons(t, Tokens(rest));
    }
  }

  lemma ValidCons(t: Token, ts: seq<Token>)
    requires Valid(ts) && WellFormed(t) && (ts != [] ==> Closed(t) && !Fuses(t, ts[0]))
    ensures Valid([t] + ts)
  {
  }

  lemma NextTokenOfBlock(text: string, rest: string)
    requires WellFormed(Block(text)) && (rest != "" ==> Closed(Block(text)))
    ensures NextToken(text + rest) == Block(text)
  {
    var s := text + rest;
    assert s[2..] == text[2..] + rest;
    if rest == "" { assert s == text; } else { BlockExtentAppend(text[2..], rest); }
    assert s[..|text|] == text;
  }

  lemma NextTokenOfLiteral(text: string, rest: string)
    requires WellFormed(Literal(text)) && (rest != "" ==> Closed(Literal(text)) && rest[0] != '\'')
    ensures NextToken(text + rest) == Literal(text)
  {
    var s := text + rest;
    assert s[1..] == text[1..] + rest;
    if rest == "" { assert s == text; } else { LiteralExtentAppend(text[1..], rest); }
    assert s[..|text|] == text;
  }

  lemma NextTokenOfComment(text: string, rest: string)
    requires WellFormed(Comment(text)) && (rest != "" ==> Closed(Comment(text)))
    ensures NextToken(text + rest) == Comment(text)
  {
    var s := text + rest;
    assert s[2..] == text[2..] + rest;
    if rest == "" { assert s == text; } else { LineExtentAppend(text[2..], rest); }
    assert s[..|text|] == text;
  }

  lemma NextTokenIsRead(t: Token, rest: string)
    requires WellFormed(t)
    requires rest != "" ==> Closed(t)
    requires rest != "" && t.Text? && (t.c == '$' || t.c == '-') ==> rest[0] != t.c
    requires rest != "" && t.Literal? ==> rest[0] != '\''
    ensures t.Source() + rest != "" && NextToken(t.Source() + rest) == t
  {
    match t
    case Text(c) =>
      assert ([c] + rest)[0] == c;
    case Terminator =>
      assert (";" + rest)[0] == ';';
    case Block(text) => NextTokenOfBlock(text, rest);
    case Literal(text) => NextTokenOfLiteral(text, rest);
    case Comment(text) => NextTokenOfComment(text, rest);
  }

  /** A well-formed token in front of a text that it does not fuse with is read back as that token. */
  lemma TokenReadsBack(t: Token, rest: string)
    requires WellFormed(t)
    requires rest != "" ==> Closed(t)
    requires rest != "" && t.Text? && (t.c == '$' || t.c == '-') ==> rest[0] != t.c
    requires rest != "" && t.Literal? ==> rest[0] != '\''
    ensures Tokens(t.Source() + rest) == [t] + Tokens(rest)
  {
    NextTokenIsRead(t, rest);
    assert (t.Source() + rest)[|t.Source()|..] == rest;
  }

  /** Printing a valid token list and reading it again gives the list back. */
  lemma {:induction false} ValidListsReadBack(ts: seq<Token>)
    requires Valid(ts)
    ensures Tokens(Flatten(ts)) == ts
  {
    if ts != [] {
      ValidListsReadBack(ts[1..]);
      if |ts| > 1 { FirstOfFlatten(ts[1..]); }
      TokenReadsBack(ts[0], Flatten(ts[1..]));
      assert ts == [ts[0]] + ts[1..];
    }
  }

  lemma FirstOfFlatten(ts: seq<Token>)
    requires ts != [] && WellFormed(ts[0])
    ensures ts[0].Source() != "" && Flatten(ts) != "" && Flatten(ts)[0] == ts[0].Source()[0]
  {
  }

  /** Exactly the valid lists survive printing and reading. */
  lemma LexerRoundTrip(ts: seq<Token>)
    ensures Tokens(Flatten(ts)) == ts <==> Valid(ts)
  {
    if Valid(ts) { ValidListsReadBack(ts); }
    TokensAreValid(Flatten(ts));
  }

  // ----- Statements -----

  /** What String.prototype.trim removes: the white space and line terminators of ECMAScript. */
  predicate IsSpace(c: char) {
    c as int in {0x09, 0x0A, 0x0B, 0x0C, 0x0D, 0x20, 0xA0, 0x1680, 0x2028, 0x2029, 0x202F, 0x205F, 0x3000, 0xFEFF}
    || 0x2000 <= c as int <= 0x200A
  }

  function TrimStart(s: string): string {
    if s != "" && IsSpace(s[0]) then TrimStart(s[1..]) else s
  }

  function TrimEnd(s: string): string {
    if s != "" && IsSpace(s[|s| - 1]) then TrimEnd(s[..|s| - 1]) else s
  }

  function Trim(s: string): string {
    TrimEnd(TrimStart(s))
  }

  /** The trimmed text, unless nothing is left of it. */
  function Statement(s: string): seq<string> {
    if Trim(s) == "" then [] else [Trim(s)]
  }

  function Statements(pieces: seq<string>): seq<string> {
    if pieces == [] then [] else Statement(pieces[0]) + Statements(pieces[1..])
  }

  // ----- What trimming removes -----

  /** The first and the end of what trimming leaves. */
  lemma {:induction false} TrimStartCutsSpaces(s: string) returns (from: nat)
    ensures from <= |s| && TrimStart(s) == s[from..]
    ensures forall i | 0 <= i < from :: IsSpace(s[i])
    ensures from < |s| ==> !IsSpace(s[from])
  {
    if s != "" && IsSpace(s[0]) {
      var n := TrimStartCutsSpaces(s[1..]);
      from := n + 1;
      assert forall i | 0 < i < from :: s[i] == s[1..][i - 1];
    } else {
      from := 0;
    }
  }

  lemma {:induction false} TrimEndCutsSpaces(s: string) returns (upto: nat)
    ensures upto <= |s| && TrimEnd(s) == s[..upto]
    ensures forall i | upto <= i < |s| :: IsSpace(s[i])
    ensures upto > 0 ==> !IsSpace(s[upto - 1])
  {
    if s != "" && IsSpace(s[|s| - 1]) {
      upto := TrimEndCutsSpaces(s[..|s| - 1]);
    } else {
      upto := |s|;
    }
  }

  /** Only white space lies outside the part, and the part neither begins nor ends with any. */
  ghost predicate IsCut(s: string, from: nat, upto: nat) {
    && from <= upto <= |s|
    && (forall i | 0 <= i < from || upto <= i < |s| :: IsSpace(s[i]))
    && (from < upto ==> !IsSpace(s[from]) && !IsSpace(s[upto - 1]))
  }

  lemma TrimIsACut(s: string) returns (from: nat, upto: nat)
    ensures IsCut(s, from, upto) && Trim(s) == s[from..upto]
  {
    from := TrimStartCutsSpaces(s);
    var n := TrimEndCutsSpaces(s[from..]);
    upto := from + n;
    assert forall i | upto <= i < |s| :: s[i] == s[from..][i - from];
    if from < upto { assert s[from] == s[from..][0] && s[upto - 1] == s[from..][n - 1]; }
  }

  lemma {:induction false} StatementsAreTrimmed(pieces: seq<string>)
    ensures forall st | st in Statements(pieces) :: st != "" && !IsSpace(st[0]) && !IsSpace(st[|st| - 1])
  {
    if pieces != [] {
      var from, upto := TrimIsACut(pieces[0]);
      StatementsAreTrimmed(pieces[1..]);
    }
  }

  function NonEmpty(ss: seq<string>): seq<string> {
    if ss == [] then [] else (if ss[0] == "" then [] else [ss[0]]) + NonEmpty(ss[1..])
  }

  function Cuts(pieces: seq<string>, from: seq<nat>, upto: seq<nat>): (cut: seq<string>)
    requires |from| == |upto| == |pieces| && forall k | 0 <= k < |pieces| :: from[k] <= upto[k] <= |pieces[k]|
  {
    seq(|pieces|, k requires 0 <= k < |pieces| => pieces[k][from[k]..upto[k]])
  }

  lemma {:induction false} StatementsAreCuts(pieces: seq<string>) returns (from: seq<nat>, upto: seq<nat>)
    ensures |from| == |upto| == |pieces|
    ensures forall k | 0 <= k < |pieces| :: IsCut(pieces[k], from[k], upto[k]) && from[k] <= upto[k] <= |pieces[k]|
    ensures Statements(pieces) == NonEmpty(Cuts(pieces, from, upto))
  {
    hide IsSpace, Trim;
    if pieces == [] {
      from, upto := [], [];
    } else {
      var m, n := TrimIsACut(pieces[0]);
      assert m <= n <= |pieces[0]|;
      hide IsCut;
      var ms, ns := StatementsAreCuts(pieces[1..]);
      from, upto := [m] + ms, [n] + ns;
      assert Cuts(pieces, from, upto)[1..] == Cuts(pieces[1..], ms, ns);
    }
  }

  /** Every piece between two terminators is cut to a part of itself: what is cut off on both sides is white
      space of ECMAScript, what is left neither begins nor ends with any, and nothing is left of a piece of
      white space alone.  The statements are the parts that are left, in order. */
  lemma StatementsAreTheTrimmedPieces(content: string, white: set<int>) returns (from: seq<nat>, upto: seq<nat>)
    requires white == {0x09, 0x0A, 0x0B, 0x0C, 0x0D, 0x20, 0xA0, 0x1680, 0x2000, 0x2001, 0x2002, 0x2003, 0x2004, 0x2005,
                       0x2006, 0x2007, 0x2008, 0x2009, 0x200A, 0x2028, 0x2029, 0x202F, 0x205F, 0x3000, 0xFEFF}
    ensures var pieces := Pieces(Kept(Tokens(content)));
            && |from| == |upto| == |pieces|
            && (forall k | 0 <= k < |pieces| ::
                  && from[k] <= upto[k] <= |pieces[k]|
                  && (forall i | 0 <= i < from[k] || upto[k] <= i < |pieces[k]| :: pieces[k][i] as int in white)
                  && (from[k] < upto[k] ==> pieces[k][from[k]] as int !in white && pieces[k][upto[k] - 1] as int !in white))
            && Split(content) == NonEmpty(Cuts(pieces, from, upto))
  {
    assert forall c: char :: c as int in white <==> IsSpace(c);
    hide IsSpace, Pieces, Kept, Tokens, Statements;
    from, upto := StatementsAreCuts(Pieces(Kept(Tokens(content))));
  }

  function Kept(ts: seq<Token>): seq<Token> {
    if ts == [] then [] else (if ts[0].Comment? then [] else [ts[0]]) + Kept(ts[1..])
  }

  /** The texts between the terminators. */
  function Pieces(ts: seq<Token>): (ps: seq<string>)
    ensures ps != []
  {
    if ts == [] then [""]
    else
      var ps := Pieces(ts[1..]);
      if ts[0].Terminator? then [""] + ps else [ts[0].Source() + ps[0]] + ps[1..]
  }

  function Split(s: string): seq<string> {
    Statements(Pieces(Kept(Tokens(s))))
  }

  function Join(ss: seq<string>): string {
    if ss == [] then ""
    else if |ss| == 1 then ss[0]
    else ss[0] + ";" + Join(ss[1..])
  }

  // ----- The runner's loop computes the same statements -----

  datatype Mode = Plain | InDollarQuote | InStringLiteral

  function ModeOf(inDollarQuote: bool, inStringLiteral: bool): Mode {
    if inDollarQuote then InDollarQuote else if inStringLiteral then InStringLiteral else Plain
  }

  /** The statements still to come from tokens ts when the text cur has been collected. */
  function Cut(cur: string, ts: seq<Token>): seq<string>
    decreases ts
  {
    if ts == [] then Statement(cur)
    else match ts[0]
      case Terminator => Statement(cur) + Cut("", ts[1..])
      case Comment(_) => Cut(cur, ts[1..])
      case _ => Cut(cur + ts[0].Source(), ts[1..])
  }

  lemma {:induction false} CutIsStatementsOfPieces(cur: string, ts: seq<Token>)
    ensures var ps := Pieces(Kept(ts)); Cut(cur, ts) == Statements([cur + ps[0]] + ps[1..])
    decreases ts
  {
    var ps := Pieces(Kept(ts));
    if ts == [] {
      assert cur + "" == cur;
    } else if ts[0].Comment? {
      assert Kept(ts) == Kept(ts[1..]);
      CutIsStatementsOfPieces(cur, ts[1..]);
    } else {
      var qs := Pieces(Kept(ts[1..]));
      assert Kept(ts)[1..] == Kept(ts[1..]);
      if ts[0].Terminator? {
        CutIsStatementsOfPieces("", ts[1..]);
        assert "" + qs[0] == qs[0] && [qs[0]] + qs[1..] == qs;
        assert cur + "" == cur;
        assert ps == [""] + qs;
      } else {
        CutIsStatementsOfPieces(cur + ts[0].Source(), ts[1..]);
        assert ps == [ts[0].Source() + qs[0]] + qs[1..];
        assert cur + ts[0].Source() + qs[0] == cur + (ts[0].Source() + qs[0]);
      }
    }
  }

  /** The statements still to come when the loop stands in front of s. */
  function Remaining(mode: Mode, cur: string, s: string): seq<string> {
    var n := match mode
      case Plain => 0
      case InDollarQuote => BlockExtent(s).length
      case InStringLiteral => LiteralExtent(s).length;
    Cut(cur + s[..n], Tokens(s[n..]))
  }

  lemma RemainingPlain(cur: string, s: string)
    ensures Remaining(Plain, cur, s) == Cut(cur, Tokens(s))
  {
    assert cur + s[..0] == cur && s[0..] == s;
  }

  lemma RemainingAtEnd(mode: Mode, cur: string)
    ensures Remaining(mode, cur, "") == Statement(cur)
  {
    assert cur + "" == cur;
  }

  lemma StepInBlock(cur: string, s: string)
    requires s != ""
    ensures Doubled(s, '$') ==> Remaining(InDollarQuote, cur, s) == Remaining(Plain, cur + "$$", s[2..])
    ensures !Doubled(s, '$') ==> Remaining(InDollarQuote, cur, s) == Remaining(InDollarQuote, cur + [s[0]], s[1..])
  {
    if Doubled(s, '$') {
      assert s[..2] == "$$";
      RemainingPlain(cur + "$$", s[2..]);
    } else {
      var n := BlockExtent(s).length;
      assert cur + [s[0]] + s[1..][..n - 1] == cur + s[..n];
      assert s[1..][n - 1..] == s[n..];
    }
  }

  lemma StepInLiteral(cur: string, s: string)
    requires s != ""
    ensures Doubled(s, '\'') ==>
              Remaining(InStringLiteral, cur, s) == Remaining(InStringLiteral, cur + [s[0]] + "'", s[2..])
    ensures !Doubled(s, '\'') && s[0] == '\'' ==>
              Remaining(InStringLiteral, cur, s) == Remaining(Plain, cur + [s[0]], s[1..])
    ensures s[0] != '\'' ==>
              Remaining(InStringLiteral, cur, s) == Remaining(InStringLiteral, cur + [s[0]], s[1..])
  {
    var n := LiteralExtent(s).length;
    if Doubled(s, '\'') {
      assert s[..n] == [s[0]] + "'" + s[2..][..n - 2];
      assert cur + [s[0]] + "'" + s[2..][..n - 2] == cur + ([s[0]] + "'" + s[2..][..n - 2]);
      assert s[2..][n - 2..] == s[n..];
    } else if s[0] == '\'' {
      assert s[..1] == [s[0]];
      RemainingPlain(cur + [s[0]], s[1..]);
    } else {
      assert cur + [s[0]] + s[1..][..n - 1] == cur + s[..n];
      assert s[1..][n - 1..] == s[n..];
    }
  }

  lemma CutHead(cur: string, t: Token, ts: seq<Token>)
    ensures Cut(cur, [t] + ts) == match t
                                  case Terminator => Statement(cur) + Cut("", ts)
                                  case Comment(_) => Cut(cur, ts)
                                  case _ => Cut(cur + t.Source(), ts)
  {
    assert ([t] + ts)[1..] == ts;
  }

  lemma StepIntoBlock(cur: string, s: string)
    requires Doubled(s, '$')
    ensures Remaining(Plain, cur, s) == Remaining(InDollarQuote, cur + "$$", s[2..])
  {
    hide Cut;
    var n := 2 + BlockExtent(s[2..]).length;
    RemainingPlain(cur, s);
    assert Tokens(s) == [Block(s[..n])] + Tokens(s[n..]);
    CutHead(cur, Block(s[..n]), Tokens(s[n..]));
    assert s[..n] == "$$" + s[2..][..n - 2];
    ConcatIsAssociative(cur, "$$", s[2..][..n - 2]);
    assert s[2..][n - 2..] == s[n..];
  }

  lemma StepIntoLiteral(cur: string, s: string)
    requires s != "" && s[0] == '\''
    ensures Remaining(Plain, cur, s) == Remaining(InStringLiteral, cur + [s[0]], s[1..])
  {
    hide Cut;
    var n := 1 + LiteralExtent(s[1..]).length;
    RemainingPlain(cur, s);
    assert Tokens(s) == [Literal(s[..n])] + Tokens(s[n..]);
    CutHead(cur, Literal(s[..n]), Tokens(s[n..]));
    assert s[..n] == [s[0]] + s[1..][..n - 1];
    ConcatIsAssociative(cur, [s[0]], s[1..][..n - 1]);
    assert s[1..][n - 1..] == s[n..];
  }

  lemma StepOverComment(cur: string, s: string)
    requires Doubled(s, '-')
    ensures Remaining(Plain, cur, s) == Remaining(Plain, cur, s[2 + LineExtent(s[2..]).length..])
  {
    hide Cut;
    var n := 2 + LineExtent(s[2..]).length;
    RemainingPlain(cur, s);
    RemainingPlain(cur, s[n..]);
    assert Tokens(s) == [Comment(s[..n])] + Tokens(s[n..]);
    CutHead(cur, Comment(s[..n]), Tokens(s[n..]));
  }

  lemma StepInPlain(cur: string, s: string)
    requires s != "" && !Doubled(s, '$') && !Doubled(s, '-') && s[0] != '\''
    ensures s[0] == ';' ==> Remaining(Plain, cur, s) == Statement(cur) + Remaining(Plain, "", s[1..])
    ensures s[0] != ';' ==> Remaining(Plain, cur, s) == Remaining(Plain, cur + [s[0]], s[1..])
  {
    hide Cut, Statement;
    RemainingPlain(cur, s);
    RemainingPlain("", s[1..]);
    RemainingPlain(cur + [s[0]], s[1..]);
    assert Tokens(s) == [NextToken(s)] + Tokens(s[1..]);
    CutHead(cur, NextToken(s), Tokens(s[1..]));
  }

  lemma LineExtentStep(s: string, i: nat)
    requires i < |s|
    ensures s[i] != '\n' ==> var e := LineExtent(s[i + 1..]); LineExtent(s[i..]) == Extent(1 + e.length, e.closed)
    ensures s[i] == '\n' ==> LineExtent(s[i..]) == Extent(1, true)
  {
    assert s[i..][1..] == s[i + 1..];
  }

  /** The loop at index i, which it may move one past the end, has still to produce what is missing from goal. */
  ghost predicate OnTrack(goal: seq<string>, content: string, st: State) {
    goal == st.statements + Remaining(st.mode, st.current, From(content, st.i))
  }

  function From(content: string, i: nat): string {
    if i <= |content| then content[i..] else ""
  }

  /** The state of the loop's variables after the iteration that starts in the given one. */
  datatype State = State(statements: seq<string>, mode: Mode, current: string, i: nat)

  function Next(content: string, st: State): (next: State)
    requires st.i < |content|
    ensures st.i < next.i <= |content| + 1
  {
    var State(statements, mode, cur, i) := st;
    var ch := content[i];
    var twice := i + 1 < |content| && content[i + 1] == ch;
    match mode
    case InDollarQuote =>
      if ch == '$' && twice then State(statements, Plain, cur + "$$", i + 2)
      else State(statements, mode, cur + [ch], i + 1)
    case InStringLiteral =>
      if ch != '\'' then State(statements, mode, cur + [ch], i + 1)
      else if twice then State(statements, mode, cur + [ch] + "'", i + 2)
      else State(statements, Plain, cur + [ch], i + 1)
    case Plain =>
      if ch == '$' && twice then State(statements, InDollarQuote, cur + "$$", i + 2)
      else if ch == '\'' then State(statements, InStringLiteral, cur + [ch], i + 1)
      else if ch == '-' && twice then
        var line := LineExtent(content[i..]);
        State(statements, Plain, cur, i + line.length + if line.closed then 0 else 1)
      else if ch == ';' then State(statements + Statement(cur), Plain, "", i + 1)
      else State(statements, Plain, cur + [ch], i + 1)
  }

  lemma SplitIsRemaining(content: string)
    ensures OnTrack(Split(content), content, State([], Plain, "", 0))
  {
    var ps := Pieces(Kept(Tokens(content)));
    RemainingPlain("", content);
    CutIsStatementsOfPieces("", Tokens(content));
    assert "" + ps[0] == ps[0] && [ps[0]] + ps[1..] == ps;
    assert content[0..] == content;
  }

  /** An iteration of the loop leaves the result it is heading for unchanged. */
  lemma NextStaysOnTrack(goal: seq<string>, content: string, st: State)
    requires st.i < |content| && OnTrack(goal, content, st)
    ensures OnTrack(goal, content, Next(content, st))
  {
    hide OnTrack, Next;
    match st.mode
    case InDollarQuote => NextInBlock(goal, content, st);
    case InStringLiteral => NextInLiteral(goal, content, st);
    case Plain =>
      var s := content[st.i..];
      if Doubled(s, '$') || s[0] == '\'' {
        NextIntoQuotes(goal, content, st);
      } else if Doubled(s, '-') {
        NextAfterComment(goal, content, st);
      } else {
        NextAfterCharacter(goal, content, st);
      }
  }

  lemma NextInBlock(goal: seq<string>, content: string, st: State)
    requires st.mode.InDollarQuote?
    requires st.i < |content| && OnTrack(goal, content, st)
    ensures OnTrack(goal, content, Next(content, st))
  {
    hide Remaining;
    var s := content[st.i..];
    assert s[1..] == content[st.i + 1..] && (|s| >= 2 ==> s[2..] == content[st.i + 2..]);
    StepInBlock(st.current, s);
  }

  lemma NextInLiteral(goal: seq<string>, content: string, st: State)
    requires st.mode.InStringLiteral?
    requires st.i < |content| && OnTrack(goal, content, st)
    ensures OnTrack(goal, content, Next(content, st))
  {
    hide Remaining;
    var s := content[st.i..];
    assert s[1..] == content[st.i + 1..] && (|s| >= 2 ==> s[2..] == content[st.i + 2..]);
    StepInLiteral(st.current, s);
  }

  lemma CommentExtent(content: string, i: nat)
    requires i + 1 < |content| && content[i] == content[i + 1] == '-'
    ensures var s := content[i..]; var n := LineExtent(s).length;
            && Doubled(s, '-') && n == 2 + LineExtent(s[2..]).length
            && s[n..] == content[i + n..]
  {
    LineExtentStep(content, i);
    LineExtentStep(content, i + 1);
    assert content[i..][2..] == content[i + 2..];
  }

  lemma RemainingAfterComment(content: string, i: nat, cur: string)
    requires i + 1 < |content| && content[i] == content[i + 1] == '-'
    ensures var line := LineExtent(content[i..]);
            Remaining(Plain, cur, From(content, i + line.length + if line.closed then 0 else 1))
            == Remaining(Plain, cur, content[i..])
  {
    hide Remaining;
    var line := LineExtent(content[i..]);
    CommentExtent(content, i);
    StepOverComment(cur, content[i..]);
    hide LineExtent;
    var rest := content[i..][line.length..];
    if line.closed {
      assert content[i + line.length..] == rest;
    } else {
      assert rest == "";
    }
  }

  lemma NextAfterComment(goal: seq<string>, content: string, st: State)
    requires st.mode.Plain? && st.i + 1 < |content| && content[st.i] == content[st.i + 1] == '-'
    requires OnTrack(goal, content, st)
    ensures OnTrack(goal, content, Next(content, st))
  {
    hide Remaining;
    RemainingAfterComment(content, st.i, st.current);
  }

  lemma NextIntoQuotes(goal: seq<string>, content: string, st: State)
    requires st.mode.Plain? && st.i < |content| && OnTrack(goal, content, st)
    requires Doubled(content[st.i..], '$') || content[st.i] == '\''
    ensures OnTrack(goal, content, Next(content, st))
  {
    hide Remaining;
    var s := content[st.i..];
    assert s[1..] == content[st.i + 1..] && (|s| >= 2 ==> s[2..] == content[st.i + 2..]);
    if Doubled(s, '$') { StepIntoBlock(st.current, s); } else { StepIntoLiteral(st.current, s); }
  }

  lemma NextAfterCharacter(goal: seq<string>, content: string, st: State)
    requires st.mode.Plain? && st.i < |content| && OnTrack(goal, content, st)
    requires !Doubled(content[st.i..], '$') && !Doubled(content[st.i..], '-') && content[st.i] != '\''
    ensures OnTrack(goal, content, Next(content, st))
  {
    hide Remaining;
    var s := content[st.i..];
    assert s[1..] == content[st.i + 1..];
    StepInPlain(st.current, s);
    if s[0] == ';' {
      var now, later := Statement(st.current), Remaining(Plain, "", s[1..]);
      assert st.statements + (now + later) == st.statements + now + later;
    }
  }

  lemma TrackEnds(goal: seq<string>, content: string, st: State)
    requires st.i >= |content| && OnTrack(goal, content, st)
    ensures goal == st.statements + Statement(st.current)
  {
    hide Remaining;
    assert From(content, st.i) == "";
    RemainingAtEnd(st.mode, st.current);
  }

  lemma {:induction false} LoopFromState(goal: seq<string>, content: string, st: State)
    requires OnTrack(goal, content, st)
    ensures goal == Loop(content, st)
    decreases |content| + 1 - st.i
  {
    hide OnTrack, Next, Statement;
    if st.i < |content| {
      NextStaysOnTrack(goal, content, st);
      LoopFromState(goal, content, Next(content, st));
    } else {
      TrackEnds(goal, content, st);
    }
  }

  function Loop(content: string, st: State): seq<string>
    decreases |content| + 1 - st.i
  {
    if st.i < |content| then Loop(content, Next(content, st)) else st.statements + Statement(st.current)
  }

  /** The inner loop: from the start of a comment to its newline. */
  method SkipLine(content: string, start: nat) returns (i: nat)
    requires start < |content|
    ensures start <= i <= |content|
    ensures var line := LineExtent(content[start..]); i == start + line.length - if line.closed then 1 else 0
  {
    i := start;
    while i < |content| && content[i] != '\n'
      invariant start <= i <= |content|
      invariant var e := LineExtent(content[i..]);
                LineExtent(content[start..]) == Extent(i - start + e.length, e.closed)
    {
      LineExtentStep(content, i);
      i := i + 1;
    }
    if i < |content| { LineExtentStep(content, i); }
  }

  lemma SplitsAreTrimmed(content: string)
    ensures forall st | st in Split(content) ::
              && st != ""
              && st[0] as int !in {0x20, 0x09, 0x0A, 0x0D, 0x0B, 0x0C, 0xA0, 0xFEFF}
              && st[|st| - 1] as int !in {0x20, 0x09, 0x0A, 0x0D, 0x0B, 0x0C, 0xA0, 0xFEFF}
  {
    hide Pieces, Kept, Tokens, Statements;
    StatementsAreTrimmed(Pieces(Kept(Tokens(content))));
  }

  method SplitStatements(content: string) returns (statements: seq<string>)
    ensures statements == Split(content)
    ensures forall st | st in statements ::
              && st != ""
              && st[0] as int !in {0x20, 0x09, 0x0A, 0x0D, 0x0B, 0x0C, 0xA0, 0xFEFF}
              && st[|st| - 1] as int !in {0x20, 0x09, 0x0A, 0x0D, 0x0B, 0x0C, 0xA0, 0xFEFF}
  {
    SplitsAreTrimmed(content);
    hide Split, OnTrack;
    statements := [];
    var current := "";
    var inDollarQuote, inStringLiteral := false, false;
    SplitIsRemaining(content);
    LoopFromState(Split(content), content, State([], Plain, "", 0));

    var i := 0;
    while i < |content|
      invariant i <= |content| + 1
      invariant !(inDollarQuote && inStringLiteral)
      invariant Loop(content, State(statements, ModeOf(inDollarQuote, inStringLiteral), current, i)) == Split(content)
      decreases |content| + 1 - i
    {
      var ch := content[i];
      ghost var next := Next(content, State(statements, ModeOf(inDollarQuote, inStringLiteral), current, i));
      if inDollarQuote {
        if ch == '$' && i + 1 < |content| && content[i + 1] == '$' {
          inDollarQuote := false;
          current := current + "$$";
          i := i + 1;
        } else {
          current := current + [ch];
        }
      } else if inStringLiteral {
        current := current + [ch];
        if ch == '\'' {
          if i + 1 < |content| && content[i + 1] == '\'' {
            current := current + "'";
            i := i + 1;
          } else {
            inStringLiteral := false;
          }
        }
      } else if ch == '$' && i + 1 < |content| && content[i + 1] == '$' {
        inDollarQuote := true;
        current := current + "$$";
        i := i + 1;
      } else if ch == '\'' {
        inStringLiteral := true;
        current := current + [ch];
      } else if ch == '-' && i + 1 < |content| && content[i + 1] == '-' {
        i := SkipLine(content, i);
      } else if ch == ';' {
        statements := statements + Statement(current);
        current := "";
      } else {
        current := current + [ch];
      }
      i := i + 1;
      assert next == State(statements, ModeOf(inDollarQuote, inStringLiteral), current, i);
    }

    statements := statements + Statement(current);
  }
}
