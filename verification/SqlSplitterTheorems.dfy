/** What the splitter guarantees: nothing outside comments is lost, plain texts are split naively, and
    statements can be joined and split again as long as dropping the comments brings no two dollar signs together. */
module SqlSplitterTheorems {
  import opened SqlSplitter

  // ----- Conservation -----

  lemma {:induction false} JoinedPiecesAreTheTokens(ts: seq<Token>)
    ensures Join(Pieces(ts)) == Flatten(ts)
  {
    if ts != [] {
      var ps := Pieces(ts[1..]);
      JoinedPiecesAreTheTokens(ts[1..]);
      if ts[0].Terminator? {
        assert Pieces(ts)[1..] == ps;
        assert Join(Pieces(ts)) == "" + ";" + Join(ps);
      } else {
        JoinPrefix(ts[0].Source(), ps);
      }
    }
  }

  lemma JoinPrefix(x: string, ps: seq<string>)
    requires ps != []
    ensures Join([x + ps[0]] + ps[1..]) == x + Join(ps)
  {
    if |ps| > 1 {
      assert ([x + ps[0]] + ps[1..])[1..] == ps[1..];
      assert x + ps[0] + ";" + Join(ps[1..]) == x + (ps[0] + ";" + Join(ps[1..]));
    }
  }

  /** Rejoining the untrimmed pieces gives the source without its comments and the newlines ending them:
      everything else, inside and outside quotes, is there in the original order. */
  lemma OnlyCommentsAreDropped(s: string)
    ensures Flatten(Tokens(s)) == s
    ensures Join(Pieces(Kept(Tokens(s)))) == Flatten(Kept(Tokens(s)))
    ensures forall t | t in Tokens(s) && t.Comment? :: Doubled(t.text, '-') && LineExtent(t.text[2..]).length == |t.text| - 2
    ensures (forall t | t in Tokens(s) :: !t.Comment?) ==> Join(Pieces(Kept(Tokens(s)))) == s
  {
    TokensPartitionTheText(s);
    TokensAreValid(s);
    JoinedPiecesAreTheTokens(Kept(Tokens(s)));
    if forall t | t in Tokens(s) :: !t.Comment? { KeptAll(Tokens(s)); }
  }

  lemma {:induction false} KeptAll(ts: seq<Token>)
    requires forall t | t in ts :: !t.Comment?
    ensures Kept(ts) == ts
  {
    if ts != [] { KeptAll(ts[1..]); }
  }

  // ----- Plain texts -----

  function SplitAtSemicolons(s: string): (ps: seq<string>)
    ensures ps != []
  {
    if s == "" then [""]
    else
      var ps := SplitAtSemicolons(s[1..]);
      if s[0] == ';' then [""] + ps else [[s[0]] + ps[0]] + ps[1..]
  }

  ghost predicate HasNoQuoteOrComment(s: string) {
    && '\'' !in s
    && (forall i | 0 <= i < |s| - 1 :: !(s[i] == s[i + 1] == '$') && !(s[i] == s[i + 1] == '-'))
  }

  /** Without quotes, "$$" and "--" the splitter is split, trim and drop the empty ones. */
  lemma PlainTextIsSplitNaively(s: string)
    requires HasNoQuoteOrComment(s)
    ensures Split(s) == Statements(SplitAtSemicolons(s))
  {
    PlainPieces(s);
  }

  lemma {:induction false} PlainPieces(s: string)
    requires HasNoQuoteOrComment(s)
    ensures Pieces(Kept(Tokens(s))) == SplitAtSemicolons(s)
  {
    if s != "" {
      PlainPieces(s[1..]);
      var t := NextToken(s);
      assert t.Source() == [s[0]] && !t.Comment?;
      assert Tokens(s) == [t] + Tokens(s[1..]);
      assert Kept(Tokens(s)) == [t] + Kept(Tokens(s)[1..]);
      assert Kept(Tokens(s))[1..] == Kept(Tokens(s[1..]));
    }
  }

  // ----- When dropping the comments changes the meaning of what is left -----

  lemma {:induction false} KeptKeepsWellFormedness(ts: seq<Token>)
    requires Valid(ts)
    ensures forall t | t in Kept(ts) :: t in ts && !t.Comment? && WellFormed(t)
    ensures forall i | 0 <= i < |Kept(ts)| - 1 :: Closed(Kept(ts)[i])
  {
    if ts != [] {
      KeptKeepsWellFormedness(ts[1..]);
      if !ts[0].Comment? && Kept(ts[1..]) != [] {
        assert |ts| > 1 && Closed(ts[0]);
      }
    }
  }

  /** The text without its comments still reads as the remaining tokens exactly when no two tokens
      that a comment separated would be read together. */
  lemma DroppingCommentsIsSafeIffNothingFuses(s: string)
    ensures var kept := Kept(Tokens(s)); Tokens(Flatten(kept)) == kept <==> NoFusion(kept)
  {
    TokensAreValid(s);
    KeptKeepsWellFormedness(Tokens(s));
    LexerRoundTrip(Kept(Tokens(s)));
  }

  // ----- Trimming -----

  /** No terminator and no comment: the tokens of one statement. */
  predicate OneStatement(ts: seq<Token>) {
    Valid(ts) && forall t | t in ts :: !t.Terminator? && !t.Comment?
  }

  predicate AllClosed(ts: seq<Token>) {
    forall t | t in ts :: Closed(t)
  }

  lemma {:induction false} TrimStartTokens(ts: seq<Token>) returns (us: seq<Token>)
    requires OneStatement(ts)
    ensures OneStatement(us) && Flatten(us) == TrimStart(Flatten(ts))
    ensures AllClosed(ts) ==> AllClosed(us)
  {
    us := ts;
    if ts != [] {
      var s := Flatten(ts);
      FirstOfFlatten(ts);
      if ts[0].Text? && IsSpace(ts[0].c) {
        assert s[1..] == Flatten(ts[1..]);
        us := TrimStartTokens(ts[1..]);
      }
    }
  }

  lemma FlattenAppend(ts: seq<Token>, t: Token)
    ensures Flatten(ts + [t]) == Flatten(ts) + t.Source()
  {
    FlattenConcat(ts, [t]);
    FlattenCons(t, []);
    assert [t] + [] == [t];
  }

  lemma LastOfFlatten(ts: seq<Token>)
    requires ts != [] && WellFormed(ts[|ts| - 1])
    ensures var t := ts[|ts| - 1].Source(); t != "" && Flatten(ts) == Flatten(ts[..|ts| - 1]) + t
  {
    hide Flatten;
    FlattenAppend(ts[..|ts| - 1], ts[|ts| - 1]);
    assert ts == ts[..|ts| - 1] + [ts[|ts| - 1]];
  }

  /** A construct that is still open stays open, and is otherwise unchanged, without its last character. */
  lemma {:induction false} OpenBlockWithoutLast(s: string)
    requires s != "" && !BlockExtent(s).closed
    ensures var r := s[..|s| - 1]; BlockExtent(r) == Extent(|r|, false)
  {
    var r := s[..|s| - 1];
    if r != "" {
      OpenBlockWithoutLast(s[1..]);
      assert r[1..] == s[1..][..|s| - 2];
    }
  }

  lemma {:induction false} OpenLiteralWithoutLast(s: string)
    requires s != "" && !LiteralExtent(s).closed && s[|s| - 1] != '\''
    ensures var r := s[..|s| - 1]; LiteralExtent(r) == Extent(|r|, false)
  {
    var r := s[..|s| - 1];
    if r != "" {
      if Doubled(s, '\'') {
        assert |s| > 2;
        OpenLiteralWithoutLast(s[2..]);
        assert r[2..] == s[2..][..|s| - 3];
      } else {
        OpenLiteralWithoutLast(s[1..]);
        assert r[1..] == s[1..][..|s| - 2];
      }
    }
  }

  lemma {:induction false} ClosedQuotesEndInQuotes(s: string)
    ensures BlockExtent(s).closed && BlockExtent(s).length == |s| ==> s[|s| - 1] == '$'
    ensures LiteralExtent(s).closed && LiteralExtent(s).length == |s| ==> s[|s| - 1] == '\''
    decreases |s|
  {
    if s != "" {
      ClosedQuotesEndInQuotes(s[1..]);
      if |s| > 1 { ClosedQuotesEndInQuotes(s[2..]); }
    }
  }

  lemma OpenBlockTokenWithoutLast(text: string)
    requires WellFormed(Block(text)) && IsSpace(text[|text| - 1])
    ensures !Closed(Block(text)) && |text| > 2 && WellFormed(Block(text[..|text| - 1]))
  {
    ClosedQuotesEndInQuotes(text[2..]);
    assert |text| > 2;
    OpenBlockWithoutLast(text[2..]);
    assert text[2..][..|text| - 3] == text[..|text| - 1][2..];
  }

  lemma OpenLiteralTokenWithoutLast(text: string)
    requires WellFormed(Literal(text)) && IsSpace(text[|text| - 1])
    ensures !Closed(Literal(text)) && |text| > 1 && WellFormed(Literal(text[..|text| - 1]))
  {
    ClosedQuotesEndInQuotes(text[1..]);
    assert |text| > 1;
    OpenLiteralWithoutLast(text[1..]);
    assert text[1..][..|text| - 2] == text[..|text| - 1][1..];
  }

  lemma OpenTokenWithoutLast(t: Token) returns (u: Token)
    requires WellFormed(t) && (t.Block? || t.Literal?) && IsSpace(t.text[|t.text| - 1])
    ensures !Closed(t) && WellFormed(u) && (u.Block? || u.Literal?)
    ensures u.Source() != "" && t.Source() == u.Source() + [t.text[|t.text| - 1]]
  {
    var front := t.text[..|t.text| - 1];
    if t.Block? {
      OpenBlockTokenWithoutLast(t.text);
      u := Block(front);
    } else {
      OpenLiteralTokenWithoutLast(t.text);
      u := Literal(front);
    }
  }

  lemma ReplaceLast(ts: seq<Token>, u: Token)
    requires OneStatement(ts) && ts != []
    requires WellFormed(u) && (u.Block? || u.Literal?)
    requires u.Source() != "" && ts[|ts| - 1].Source() != "" && u.Source()[0] == ts[|ts| - 1].Source()[0]
    ensures OneStatement(ts[..|ts| - 1] + [u])
  {
    var n := |ts| - 1;
    var us := ts[..n] + [u];
    forall i | 0 <= i < n ensures Closed(us[i]) && !Fuses(us[i], us[i + 1]) {
      assert us[i] == ts[i] && Closed(ts[i]) && !Fuses(ts[i], ts[i + 1]);
    }
  }

  lemma WithoutLastCharacter(ts: seq<Token>) returns (us: seq<Token>)
    requires OneStatement(ts) && ts != []
    requires Flatten(ts) != "" && IsSpace(Flatten(ts)[|Flatten(ts)| - 1])
    ensures OneStatement(us) && Flatten(us) == Flatten(ts)[..|Flatten(ts)| - 1]
    ensures AllClosed(ts) ==> AllClosed(us)
  {
    var front, last := ts[..|ts| - 1], ts[|ts| - 1];
    LastOfFlatten(ts);
    if last.Text? {
      us := front;
    } else {
      var u := OpenTokenWithoutLast(last);
      ReplaceLast(ts, u);
      us := front + [u];
      FlattenAppend(front, u);
      ConcatIsAssociative(Flatten(front), u.Source(), [last.text[|last.text| - 1]]);
    }
  }

  lemma {:induction false} TrimEndTokens(ts: seq<Token>) returns (us: seq<Token>)
    requires OneStatement(ts)
    ensures OneStatement(us) && Flatten(us) == TrimEnd(Flatten(ts))
    ensures AllClosed(ts) ==> AllClosed(us)
    decreases |Flatten(ts)|
  {
    hide OneStatement, AllClosed, IsSpace;
    us := ts;
    var s := Flatten(ts);
    assert ts == [] ==> s == "";
    hide Flatten;
    if s != "" && IsSpace(s[|s| - 1]) {
      assert TrimEnd(s) == TrimEnd(s[..|s| - 1]);
      hide TrimEnd;
      var shorter := WithoutLastCharacter(ts);
      us := TrimEndTokens(shorter);
    }
  }

  lemma {:induction false} TrimEndIsStable(s: string)
    ensures TrimEnd(TrimEnd(s)) == TrimEnd(s)
    ensures TrimEnd(s) <= s
  {
    if s != "" && IsSpace(s[|s| - 1]) { TrimEndIsStable(s[..|s| - 1]); }
  }

  lemma {:induction false} TrimStartLeavesNoLeadingSpace(s: string)
    ensures TrimStart(s) != "" ==> !IsSpace(TrimStart(s)[0])
  {
    if s != "" && IsSpace(s[0]) { TrimStartLeavesNoLeadingSpace(s[1..]); }
  }

  lemma TrimIsStable(s: string)
    ensures Trim(Trim(s)) == Trim(s)
  {
    TrimStartLeavesNoLeadingSpace(s);
    TrimEndIsStable(TrimStart(s));
    assert TrimStart(Trim(s)) == Trim(s);
  }

  /** The tokens of a trimmed statement are again one statement, closed if the untrimmed one was. */
  lemma TrimmedStatement(ts: seq<Token>)
    requires OneStatement(ts)
    ensures var st := Trim(Flatten(ts)); OneStatement(Tokens(st)) && (AllClosed(ts) ==> AllClosed(Tokens(st)))
  {
    var us := TrimStartTokens(ts);
    var vs := TrimEndTokens(us);
    ValidListsReadBack(vs);
  }

  // ----- Splitting a join -----

  /** A text the splitter returns unchanged as its only statement. */
  predicate CleanStatement(st: string) {
    st != "" && Trim(st) == st && OneStatement(Tokens(st))
  }

  predicate CleanStatements(sts: seq<string>) {
    && (forall st | st in sts :: CleanStatement(st))
    && (forall i | 0 <= i < |sts| - 1 :: AllClosed(Tokens(sts[i])))
  }

  lemma {:induction false} PiecesOfOneStatement(ts: seq<Token>, us: seq<Token>)
    requires forall t | t in ts :: !t.Terminator? && !t.Comment?
    ensures Pieces(ts) == [Flatten(ts)]
    ensures Pieces(ts + [Terminator] + us) == [Flatten(ts)] + Pieces(us)
  {
    if ts == [] {
      assert ts + [Terminator] + us == [Terminator] + us;
    } else {
      PiecesOfOneStatement(ts[1..], us);
      assert (ts + [Terminator] + us)[1..] == ts[1..] + [Terminator] + us;
    }
  }

  lemma ValidConcat(ts: seq<Token>, us: seq<Token>)
    requires Valid(ts) && AllClosed(ts) && Valid(us)
    ensures Valid(ts + [Terminator] + us)
  {
    var all := ts + [Terminator] + us;
    forall i | 0 <= i < |all| - 1 ensures Closed(all[i]) && !Fuses(all[i], all[i + 1]) {
      if i > |ts| {
        assert all[i] == us[i - |ts| - 1] && all[i + 1] == us[i - |ts|];
      }
    }
  }

  lemma TokensOfJoin(st: string, rest: string)
    requires OneStatement(Tokens(st)) && AllClosed(Tokens(st))
    ensures Tokens(st + ";" + rest) == Tokens(st) + [Terminator] + Tokens(rest)
  {
    var ts, us := Tokens(st), Tokens(rest);
    TokensAreValid(rest);
    ValidConcat(ts, us);
    ValidListsReadBack(ts + [Terminator] + us);
    FlattenOfJoin(st, rest);
  }

  lemma FlattenOfJoin(st: string, rest: string)
    ensures Flatten(Tokens(st) + [Terminator] + Tokens(rest)) == st + ";" + rest
  {
    var ts, us := Tokens(st), Tokens(rest);
    TokensPartitionTheText(st);
    TokensPartitionTheText(rest);
    hide Tokens, Flatten;
    assert ts + [Terminator] + us == ts + ([Terminator] + us);
    FlattenConcat(ts, [Terminator] + us);
    FlattenCons(Terminator, us);
    assert Flatten([Terminator] + us) == ";" + rest;
    ConcatIsAssociative(st, ";", rest);
  }

  lemma KeptCons(t: Token, ts: seq<Token>)
    ensures Kept([t] + ts) == (if t.Comment? then [] else [t]) + Kept(ts)
  {
    assert ([t] + ts)[1..] == ts;
  }

  lemma {:induction false} KeptConcat(a: seq<Token>, b: seq<Token>)
    requires forall t | t in a :: !t.Comment?
    ensures Kept(a + b) == a + Kept(b)
  {
    if a == [] {
      assert a + b == b;
    } else {
      var rest := a[1..];
      KeptConcat(rest, b);
      assert a + b == [a[0]] + (rest + b);
      KeptCons(a[0], rest + b);
      assert [a[0]] + (rest + Kept(b)) == a + Kept(b);
    }
  }

  lemma StatementsCons(st: string, ps: seq<string>)
    requires st != "" && Trim(st) == st
    ensures Statements([st] + ps) == [st] + Statements(ps)
  {
    assert ([st] + ps)[1..] == ps;
  }

  lemma CleanStatementSplitsToItself(st: string)
    requires CleanStatement(st)
    ensures Split(st) == [st]
  {
    KeptAll(Tokens(st));
    PiecesOfOneStatement(Tokens(st), []);
    TokensPartitionTheText(st);
    StatementsCons(st, []);
    assert [st] + [] == [st];
  }

  lemma SplitOfJoin(st: string, rest: string)
    requires CleanStatement(st) && AllClosed(Tokens(st))
    ensures Split(st + ";" + rest) == [st] + Split(rest)
  {
    var ts, us := Tokens(st), Tokens(rest);
    TokensOfJoin(st, rest);
    TokensPartitionTheText(st);
    KeptConcat(ts + [Terminator], us);
    PiecesOfOneStatement(ts, Kept(us));
    StatementsCons(st, Pieces(Kept(us)));
  }

  /** Any list of clean statements, of which only the last may be left open, is recovered from its join. */
  lemma {:induction false} SplitInvertsJoin(sts: seq<string>)
    requires CleanStatements(sts)
    ensures Split(Join(sts)) == sts
  {
    hide Split, CleanStatement, AllClosed, Tokens;
    if sts == [] {
      NothingToSplit();
    } else if |sts| == 1 {
      CleanStatementSplitsToItself(sts[0]);
    } else {
      assert forall i | 0 <= i < |sts[1..]| :: sts[1..][i] == sts[i + 1];
      SplitInvertsJoin(sts[1..]);
      assert Join(sts) == sts[0] + ";" + Join(sts[1..]);
      SplitOfJoin(sts[0], Join(sts[1..]));
    }
  }

  // ----- Layout -----

  lemma LeadingSpaceIsIgnored(c: char, rest: string)
    requires IsSpace(c)
    ensures Split([c] + rest) == Split(rest)
  {
    var kept := Kept(Tokens(rest));
    TokenReadsBack(Text(c), rest);
    KeptCons(Text(c), Tokens(rest));
    hide Tokens, Kept;
    assert ([Text(c)] + kept)[1..] == kept;
    var ps := Pieces(kept);
    assert Pieces([Text(c)] + kept) == [[c] + ps[0]] + ps[1..];
    hide Pieces, IsSpace;
    assert ([c] + ps[0])[1..] == ps[0];
    assert Statement([c] + ps[0]) == Statement(ps[0]) by { hide TrimEnd; }
  }

  lemma {:induction false} LeadingGapIsIgnored(gap: string, rest: string)
    requires forall c | c in gap :: IsSpace(c)
    ensures Split(gap + rest) == Split(rest)
  {
    hide Split, IsSpace;
    if gap == "" {
      assert gap + rest == rest;
    } else {
      assert gap + rest == [gap[0]] + (gap[1..] + rest);
      LeadingSpaceIsIgnored(gap[0], gap[1..] + rest);
      LeadingGapIsIgnored(gap[1..], rest);
    }
  }

  /** A file of statements, each followed by its ';' and a gap. */
  function Laid(sts: seq<string>, gaps: seq<string>): string
    requires |sts| == |gaps|
  {
    if sts == [] then "" else sts[0] + ";" + (gaps[0] + Laid(sts[1..], gaps[1..]))
  }

  /** Whatever white space separates the statements of a file and ends it, the splitter returns them. */
  lemma {:induction false} LayoutIsIgnored(sts: seq<string>, gaps: seq<string>)
    requires |sts| == |gaps| && forall gap, c | gap in gaps && c in gap :: c as int in {0x20, 0x09, 0x0A, 0x0D, 0x0B, 0x0C}
    requires forall st | st in sts :: CleanStatement(st) && AllClosed(Tokens(st))
    ensures Split(Laid(sts, gaps)) == sts
  {
    hide Split, CleanStatement, AllClosed, Tokens;
    if sts == [] {
      NothingToSplit();
    } else {
      LayoutIsIgnored(sts[1..], gaps[1..]);
      SplitOfJoin(sts[0], gaps[0] + Laid(sts[1..], gaps[1..]));
      assert forall c | c in gaps[0] :: IsSpace(c);
      LeadingGapIsIgnored(gaps[0], Laid(sts[1..], gaps[1..]));
      assert sts == [sts[0]] + sts[1..];
    }
  }

  lemma NothingToSplit()
    ensures Split("") == []
  {
    assert Pieces(Kept(Tokens(""))) == [""];
    assert Statements([""]) == Statement("") + Statements([""][1..]);
  }

  /** No statement is made of the newline after the last ';'. */
  lemma TrailingNewlineIsNoStatement()
    ensures Split("a;\n") == ["a"]
  {
    assert CleanStatement("a") && AllClosed(Tokens("a")) by {
      TokenReadsBack(Text('a'), "");
      assert ['a'] + "" == "a";
      assert Tokens("a") == [Text('a')];
    }
    hide Split, Tokens, CleanStatement, AllClosed;
    LayoutIsIgnored(["a"], ["\n"]);
    assert "\n" + Laid([], []) == "\n";
    assert Laid(["a"], ["\n"]) == "a" + ";" + "\n" == "a;\n";
  }

  // ----- The statements of a text -----

  /** Pieces, when the tokens of head have already been read for the first one. */
  function PiecesAfter(head: seq<Token>, ts: seq<Token>): seq<string> {
    var ps := Pieces(ts);
    [Flatten(head) + ps[0]] + ps[1..]
  }

  lemma PiecesAfterTerminator(head: seq<Token>, ts: seq<Token>)
    requires ts != [] && ts[0].Terminator?
    ensures PiecesAfter(head, ts) == [Flatten(head)] + PiecesAfter([], ts[1..])
  {
    var qs := Pieces(ts[1..]);
    assert Pieces(ts) == [""] + qs;
    assert Flatten(head) + "" == Flatten(head);
    assert Flatten([]) + qs[0] == qs[0];
  }

  lemma PiecesAfterToken(head: seq<Token>, ts: seq<Token>)
    requires ts != [] && !ts[0].Terminator?
    ensures PiecesAfter(head, ts) == PiecesAfter(head + [ts[0]], ts[1..])
  {
    var qs := Pieces(ts[1..]);
    assert Pieces(ts) == [ts[0].Source() + qs[0]] + qs[1..];
    FlattenAppend(head, ts[0]);
    ConcatIsAssociative(Flatten(head), ts[0].Source(), qs[0]);
  }

  lemma {:induction false} StatementsOfPieces(head: seq<Token>, ts: seq<Token>)
    requires Valid(head + ts) && OneStatement(head) && forall t | t in ts :: !t.Comment?
    ensures CleanStatements(Statements(PiecesAfter(head, ts)))
    decreases ts
  {
    if ts == [] {
      assert Flatten(head) + "" == Flatten(head);
      StatementOfTokens(head);
    } else if ts[0].Terminator? {
      hide PiecesAfter, CleanStatements, OneStatement;
      PiecesAfterTerminator(head, ts);
      assert [] + ts[1..] == (head + ts)[|head| + 1..];
      assert OneStatement([]) by { NothingIsOneStatement(); }
      StatementsOfPieces([], ts[1..]);
      HeadIsClosed(head, ts);
      StatementsStayClean(head, PiecesAfter([], ts[1..]));
    } else {
      hide PiecesAfter, CleanStatements, Statements, OneStatement, Valid;
      PiecesAfterToken(head, ts);
      OneMoreToken(head, ts);
      StatementsOfPieces(head + [ts[0]], ts[1..]);
    }
  }

  lemma OneMoreToken(head: seq<Token>, ts: seq<Token>)
    requires Valid(head + ts) && OneStatement(head) && ts != [] && !ts[0].Terminator? && !ts[0].Comment?
    ensures OneStatement(head + [ts[0]]) && Valid(head + [ts[0]] + ts[1..])
  {
    assert head + [ts[0]] == (head + ts)[..|head| + 1];
    assert head + [ts[0]] + ts[1..] == head + ts;
  }

  lemma NothingIsOneStatement()
    ensures OneStatement([])
  {
  }

  lemma StatementsStayClean(head: seq<Token>, ps: seq<string>)
    requires OneStatement(head) && AllClosed(head) && CleanStatements(Statements(ps))
    ensures CleanStatements(Statements([Flatten(head)] + ps))
  {
    hide Flatten;
    StatementOfTokens(head);
    assert ([Flatten(head)] + ps)[1..] == ps;
  }

  lemma HeadIsClosed(head: seq<Token>, ts: seq<Token>)
    requires Valid(head + ts) && ts != []
    ensures AllClosed(head)
  {
    forall t | t in head ensures Closed(t) {
      var i :| 0 <= i < |head| && head[i] == t;
      assert (head + ts)[i] == t;
    }
  }

  lemma StatementOfTokens(ts: seq<Token>)
    requires OneStatement(ts)
    ensures CleanStatements(Statement(Flatten(ts)))
    ensures AllClosed(ts) ==> forall st | st in Statement(Flatten(ts)) :: AllClosed(Tokens(st))
  {
    TrimmedStatement(ts);
    TrimIsStable(Flatten(ts));
  }

  lemma PiecesAfterNothing(ts: seq<Token>)
    ensures PiecesAfter([], ts) == Pieces(ts)
  {
    assert Flatten([]) + Pieces(ts)[0] == Pieces(ts)[0];
  }

  // ----- String literals that a comment separated -----

  /** Two closed literals side by side read as one literal: the quotes in the middle become a doubled quote. */
  lemma {:induction false} LiteralsJoin(u: string, w: string)
    requires LiteralExtent(u).closed && LiteralExtent(u).length == |u| && w != "" && w[0] == '\''
    ensures LiteralExtent(u + w) == Extent(|u| + 1 + LiteralExtent(w[1..]).length, LiteralExtent(w[1..]).closed)
  {
    if Doubled(u, '\'') {
      LiteralsJoin(u[2..], w);
      assert (u + w)[2..] == u[2..] + w;
    } else if u[0] == '\'' {
      assert (u + w)[2..] == w[1..];
    } else {
      LiteralsJoin(u[1..], w);
      assert (u + w)[1..] == u[1..] + w;
    }
  }

  lemma JoinedLiteral(x: string, y: string)
    requires WellFormed(Literal(x)) && Closed(Literal(x)) && WellFormed(Literal(y))
    ensures WellFormed(Literal(x + y)) && (Closed(Literal(x + y)) <==> Closed(Literal(y)))
  {
    hide LiteralExtent;
    LiteralsJoin(x[1..], y);
    assert (x + y)[1..] == x[1..] + y;
  }

  function JoinFirstTwo(ts: seq<Token>): seq<Token>
    requires |ts| >= 2 && ts[0].Literal? && ts[1].Literal?
  {
    [Literal(ts[0].text + ts[1].text)] + ts[2..]
  }

  /** Neighbouring literals are put together. */
  function Merged(ts: seq<Token>): seq<Token>
    decreases |ts|
  {
    if |ts| <= 1 then ts
    else if ts[0].Literal? && ts[1].Literal? then Merged(JoinFirstTwo(ts))
    else [ts[0]] + Merged(ts[1..])
  }

  /** The tokens that remain when comments are dropped, before it is known how they read together. */
  predicate Leftover(ts: seq<Token>) {
    && (forall t | t in ts :: WellFormed(t) && !t.Comment?)
    && (forall i | 0 <= i < |ts| - 1 :: Closed(ts[i]))
  }

  predicate Remnant(ts: seq<Token>) {
    && Leftover(ts)
    && (forall i | 0 <= i < |ts| - 1 :: ts[i].Text? ==> !Fuses(ts[i], ts[i + 1]))
  }

  lemma FirstCharacter(t: Token)
    requires WellFormed(t) && !t.Comment?
    ensures t.Source() != ""
    ensures t.Source()[0] == match t
                             case Text(c) => c
                             case Terminator => ';'
                             case Block(_) => '$'
                             case Literal(_) => '\''
                             case Comment(_) => '-'
    ensures !t.Literal? ==> t.Source()[0] != '\''
  {
  }

  lemma JoiningKeepsRemnant(ts: seq<Token>)
    requires |ts| >= 2 && ts[0].Literal? && ts[1].Literal? && Remnant(ts)
    ensures Remnant(JoinFirstTwo(ts))
  {
    JoinedLiteral(ts[0].text, ts[1].text);
    hide WellFormed, Closed, Fuses;
    var us := JoinFirstTwo(ts);
    assert forall i | 1 <= i < |us| :: us[i] == ts[i + 1];
  }

  lemma JoiningKeepsText(ts: seq<Token>)
    requires |ts| >= 2 && ts[0].Literal? && ts[1].Literal?
    ensures Flatten(JoinFirstTwo(ts)) == Flatten(ts)
  {
    var x, y, rest := ts[0].text, ts[1].text, ts[2..];
    assert ts[1..] == [ts[1]] + rest;
    FlattenCons(Literal(x + y), rest);
    FlattenCons(ts[1], rest);
    ConcatIsAssociative(x, y, Flatten(rest));
  }

  lemma JoiningKeepsPieces(ts: seq<Token>)
    requires |ts| >= 2 && ts[0].Literal? && ts[1].Literal?
    ensures Pieces(JoinFirstTwo(ts)) == Pieces(ts)
  {
    var x, y, rest, us := ts[0].text, ts[1].text, ts[2..], JoinFirstTwo(ts);
    assert us[1..] == rest && ts[1..][1..] == rest;
    var ps := Pieces(rest);
    assert Pieces(ts[1..]) == [y + ps[0]] + ps[1..];
    ConcatIsAssociative(x, y, ps[0]);
    assert Pieces(us) == [(x + y) + ps[0]] + ps[1..];
  }

  lemma RestOfRemnant(ts: seq<Token>)
    requires Remnant(ts) && ts != []
    ensures Remnant(ts[1..])
  {
    hide WellFormed, Closed, Fuses;
    assert forall i | 0 <= i < |ts| - 1 :: ts[1..][i] == ts[i + 1];
  }

  /** Merging changes neither the text nor the pieces, and leaves nothing that reads together. */
  lemma {:induction false} MergedReadsBack(ts: seq<Token>)
    requires Remnant(ts)
    ensures Flatten(Merged(ts)) == Flatten(ts) && Pieces(Merged(ts)) == Pieces(ts)
    ensures Valid(Merged(ts)) && forall t | t in Merged(ts) :: !t.Comment?
    ensures ts != [] ==> Merged(ts) != [] && Merged(ts)[0].Source() != "" && ts[0].Source() != ""
                         && Merged(ts)[0].Source()[0] == ts[0].Source()[0]
                         && (Merged(ts)[0].Literal? <==> ts[0].Literal?)
    decreases |ts|
  {
    if ts == [] {
    } else if |ts| == 1 {
      FirstCharacter(ts[0]);
    } else if ts[0].Literal? && ts[1].Literal? {
      FirstCharacter(ts[0]);
      JoiningKeepsRemnant(ts);
      JoiningKeepsText(ts);
      JoiningKeepsPieces(ts);
      assert JoinFirstTwo(ts)[0].Source()[0] == ts[0].Source()[0];
      hide Remnant, Valid, Flatten, Pieces;
      MergedReadsBack(JoinFirstTwo(ts));
    } else {
      FirstCharacter(ts[0]);
      RestOfRemnant(ts);
      MergedReadsBack(ts[1..]);
      PrependMerged(ts, Merged(ts[1..]));
    }
  }

  lemma PrependMerged(ts: seq<Token>, us: seq<Token>)
    requires Remnant(ts) && |ts| >= 2 && !(ts[0].Literal? && ts[1].Literal?)
    requires Flatten(us) == Flatten(ts[1..]) && Pieces(us) == Pieces(ts[1..]) && Valid(us)
    requires us != [] && us[0].Source() != "" && ts[1].Source() != "" && us[0].Source()[0] == ts[1].Source()[0]
    ensures Flatten([ts[0]] + us) == Flatten(ts) && Pieces([ts[0]] + us) == Pieces(ts) && Valid([ts[0]] + us)
  {
    assert ([ts[0]] + us)[1..] == us;
    hide Remnant, Valid;
    PrependKeepsValid(ts, us);
  }

  lemma PrependKeepsValid(ts: seq<Token>, us: seq<Token>)
    requires Remnant(ts) && |ts| >= 2 && !(ts[0].Literal? && ts[1].Literal?) && Valid(us)
    requires us != [] && us[0].Source() != "" && ts[1].Source() != "" && us[0].Source()[0] == ts[1].Source()[0]
    ensures Valid([ts[0]] + us)
  {
    var all := [ts[0]] + us;
    FirstCharacter(ts[1]);
    SameFirstCharacter(ts[0], us[0], ts[1]);
    hide WellFormed, Closed, Fuses;
    assert forall i | 1 <= i < |all| :: all[i] == us[i - 1];
  }

  lemma SameFirstCharacter(a: Token, b: Token, c: Token)
    requires b.Source() != "" && c.Source() != "" && b.Source()[0] == c.Source()[0]
    requires (a.Text? ==> !Fuses(a, c)) && (a.Literal? ==> c.Source()[0] != '\'')
    ensures !Fuses(a, b)
  {
  }

  // ----- The round trip -----

  /** A dollar sign that ends up in front of another one when the comments between them are dropped. */
  predicate DollarsMeet(ts: seq<Token>) {
    exists i :: 0 <= i < |ts| - 1 && ts[i] == Text('$') && Fuses(ts[i], ts[i + 1])
  }

  lemma JoiningKeepsMeetings(ts: seq<Token>)
    requires |ts| >= 2 && ts[0].Literal? && ts[1].Literal? && Leftover(ts)
    ensures Leftover(JoinFirstTwo(ts))
    ensures DollarsMeet(ts) ==> DollarsMeet(JoinFirstTwo(ts))
  {
    var us := JoinFirstTwo(ts);
    JoinedLiteral(ts[0].text, ts[1].text);
    hide WellFormed, Closed, Fuses;
    assert forall i | 1 <= i < |us| :: us[i] == ts[i + 1];
    if DollarsMeet(ts) {
      var i :| 0 <= i < |ts| - 1 && ts[i] == Text('$') && Fuses(ts[i], ts[i + 1]);
      assert i >= 2 && us[i - 1] == Text('$') && Fuses(us[i - 1], us[i]);
    }
  }

  lemma MeetingsInFront(ts: seq<Token>, us: seq<Token>)
    requires |ts| >= 2 && us != [] && us[0].Source() != "" && ts[1].Source() != ""
    requires us[0].Source()[0] == ts[1].Source()[0] && (DollarsMeet(ts[1..]) ==> DollarsMeet(us))
    ensures DollarsMeet(ts) ==> DollarsMeet([ts[0]] + us)
  {
    var all := [ts[0]] + us;
    if DollarsMeet(ts) {
      var i :| 0 <= i < |ts| - 1 && ts[i] == Text('$') && Fuses(ts[i], ts[i + 1]);
      if i == 0 {
        assert all[0] == Text('$') && Fuses(all[0], all[1]);
      } else {
        assert ts[1..][i - 1] == Text('$') && Fuses(ts[1..][i - 1], ts[1..][i]);
        hide Fuses;
        var k :| 0 <= k < |us| - 1 && us[k] == Text('$') && Fuses(us[k], us[k + 1]);
        assert all[k + 1] == Text('$') && Fuses(all[k + 1], all[k + 2]);
      }
    }
  }

  /** Merging literals keeps the text and does not come between two dollar signs. */
  lemma {:induction false} MergingKeepsMeetings(ts: seq<Token>)
    requires Leftover(ts)
    ensures Flatten(Merged(ts)) == Flatten(ts)
    ensures ts != [] ==> Merged(ts) != [] && Merged(ts)[0].Source() != "" && ts[0].Source() != ""
                         && Merged(ts)[0].Source()[0] == ts[0].Source()[0]
    ensures DollarsMeet(ts) ==> DollarsMeet(Merged(ts))
    decreases |ts|
  {
    if ts != [] { FirstCharacter(ts[0]); }
    if |ts| >= 2 {
      hide WellFormed, Closed, Fuses, DollarsMeet;
      if ts[0].Literal? && ts[1].Literal? {
        JoiningKeepsText(ts);
        JoiningKeepsMeetings(ts);
        assert JoinFirstTwo(ts)[0].Source()[0] == ts[0].Source()[0];
        MergingKeepsMeetings(JoinFirstTwo(ts));
      } else {
        assert Leftover(ts[1..]) by { assert forall i | 0 <= i < |ts| - 1 :: ts[1..][i] == ts[i + 1]; }
        MergingKeepsMeetings(ts[1..]);
        MeetingsInFront(ts, Merged(ts[1..]));
        assert ([ts[0]] + Merged(ts[1..]))[1..] == Merged(ts[1..]);
      }
    }
  }

  /** The text without its comments reads as the remaining tokens, up to literals that now stand side by side,
      exactly when no two dollar signs are brought together. */
  lemma CommentsCanBeDroppedIffNoDollarsMeet(s: string)
    ensures var kept := Kept(Tokens(s)); Tokens(Flatten(kept)) == Merged(kept) <==> !DollarsMeet(kept)
  {
    var kept := Kept(Tokens(s));
    TokensAreValid(s);
    KeptKeepsWellFormedness(Tokens(s));
    assert Leftover(kept);
    MergingKeepsMeetings(kept);
    LexerRoundTrip(Merged(kept));
    hide Tokens, Kept, Merged, Flatten, WellFormed, Closed, Fuses;
    if !DollarsMeet(kept) {
      KeptIsARemnant(s);
      MergedReadsBack(kept);
    } else {
      var i :| 0 <= i < |Merged(kept)| - 1 && Merged(kept)[i] == Text('$') && Fuses(Merged(kept)[i], Merged(kept)[i + 1]);
      assert !NoFusion(Merged(kept));
    }
  }

  /** Dashes never meet: a comment cannot follow one. */
  lemma {:induction false} DashesNeverMeet(ts: seq<Token>)
    requires Valid(ts)
    ensures forall i | 0 <= i < |Kept(ts)| - 1 && Kept(ts)[i] == Text('-') :: !Fuses(Kept(ts)[i], Kept(ts)[i + 1])
  {
    if ts != [] {
      assert Valid(ts[1..]);
      DashesNeverMeet(ts[1..]);
      if ts[0] == Text('-') && Kept(ts[1..]) != [] {
        assert !Fuses(ts[0], ts[1]) && WellFormed(ts[1]);
        assert !ts[1].Comment?;
        assert Kept(ts[1..])[0] == ts[1];
      }
    }
  }

  lemma FusingCharacters(a: Token, b: Token)
    requires a.Text? && Fuses(a, b)
    ensures a == Text('$') || a == Text('-')
  {
  }

  lemma KeptIsARemnant(s: string)
    requires !DollarsMeet(Kept(Tokens(s)))
    ensures Remnant(Kept(Tokens(s)))
  {
    var kept := Kept(Tokens(s));
    TokensAreValid(s);
    KeptKeepsWellFormedness(Tokens(s));
    DashesNeverMeet(Tokens(s));
    hide WellFormed, Closed, Valid, Tokens, Kept, Fuses;
    forall i | 0 <= i < |kept| - 1 && kept[i].Text? ensures !Fuses(kept[i], kept[i + 1]) {
      if Fuses(kept[i], kept[i + 1]) { FusingCharacters(kept[i], kept[i + 1]); }
    }
  }

  lemma SplitIsClean(s: string)
    requires !DollarsMeet(Kept(Tokens(s)))
    ensures CleanStatements(Split(s))
  {
    KeptIsARemnant(s);
    hide CleanStatements, Flatten, DollarsMeet, Remnant, Valid;
    var merged := Merged(Kept(Tokens(s)));
    MergedReadsBack(Kept(Tokens(s)));
    assert [] + merged == merged;
    assert OneStatement([]) by { NothingIsOneStatement(); }
    StatementsOfPieces([], merged);
    PiecesAfterNothing(merged);
  }

  /** Unless dropping the comments brings two dollar signs together, every returned statement is trimmed,
      non-empty and splits to itself, only the last one can end inside an open quote, and joining them loses
      nothing. */
  lemma RoundTrip(s: string)
    requires !DollarsMeet(Kept(Tokens(s)))
    ensures CleanStatements(Split(s))
    ensures forall st | st in Split(s) :: Split(st) == [st]
    ensures Split(Join(Split(s))) == Split(s)
  {
    hide Split, Join, DollarsMeet;
    SplitIsClean(s);
    SplitInvertsJoin(Split(s));
    forall st | st in Split(s) ensures Split(st) == [st] { CleanStatementSplitsToItself(st); }
  }

  lemma CommentFreeTextsRoundTrip(s: string)
    requires forall t | t in Tokens(s) :: !t.Comment?
    ensures CleanStatements(Split(s)) && Split(Join(Split(s))) == Split(s)
  {
    TokensAreValid(s);
    KeptAll(Tokens(s));
    assert !DollarsMeet(Kept(Tokens(s)));
    RoundTrip(s);
  }

  lemma BlockIsCleanStatement(text: string)
    requires WellFormed(Block(text)) && !IsSpace(text[|text| - 1])
    ensures CleanStatement(text) && Tokens(text) == [Block(text)]
  {
    hide Tokens, Trim, BlockExtent;
    BlockIsOneToken(text);
    assert !IsSpace('$');
    hide IsSpace;
    TrimmedAlready(text);
  }

  lemma TrimmedAlready(st: string)
    requires st != "" && !IsSpace(st[0]) && !IsSpace(st[|st| - 1])
    ensures Trim(st) == st
  {
  }

  lemma BlockIsOneToken(text: string)
    requires WellFormed(Block(text))
    ensures text != "" && text[0] == '$' && Tokens(text) == [Block(text)]
  {
    hide BlockExtent;
    TokenReadsBack(Block(text), "");
    assert text + "" == text;
    assert [Block(text)] + Tokens("") == [Block(text)];
  }

  lemma WitnessTail()
    ensures Tokens("$ $$;$$") == [Text('$'), Text(' '), Block("$$;$$")]
  {
    hide Tokens;
    BlockIsCleanStatement("$$;$$");
    TokenReadsBack(Text(' '), "$$;$$");
    assert [' '] + "$$;$$" == " $$;$$";
    TokenReadsBack(Text('$'), " $$;$$");
    assert ['$'] + " $$;$$" == "$ $$;$$";
  }

  lemma WitnessTokens()
    ensures Tokens("$--c\n$ $$;$$") == [Text('$')] + ([Comment("--c\n")] + [Text('$'), Text(' '), Block("$$;$$")])
  {
    hide Tokens;
    WitnessTail();
    assert "--c\n"[2..] == "c\n" && LineExtent("c\n") == Extent(2, true);
    TokenReadsBack(Comment("--c\n"), "$ $$;$$");
    assert "--c\n" + "$ $$;$$" == "--c\n$ $$;$$";
    TokenReadsBack(Text('$'), "--c\n$ $$;$$");
    assert ['$'] + "--c\n$ $$;$$" == "$--c\n$ $$;$$";
  }

  lemma WitnessKept()
    ensures Kept(Tokens("$--c\n$ $$;$$")) == [Text('$'), Text('$'), Text(' '), Block("$$;$$")]
  {
    hide Tokens, Kept;
    var rest := [Text('$'), Text(' '), Block("$$;$$")];
    WitnessTokens();
    KeptAll(rest);
    KeptCons(Comment("--c\n"), rest);
    KeptCons(Text('$'), [Comment("--c\n")] + rest);
  }

  lemma WitnessPieces()
    ensures Pieces([Text('$'), Text('$'), Text(' '), Block("$$;$$")]) == ["$$ $$;$$"]
  {
    var kept := [Text('$'), Text('$'), Text(' '), Block("$$;$$")];
    PiecesOfOneStatement(kept, []);
    assert Flatten([Block("$$;$$")]) == "$$;$$";
    assert kept[1..][1..][1..] == [Block("$$;$$")];
    assert Flatten(kept[1..][1..]) == " $$;$$";
    assert Flatten(kept[1..]) == "$ $$;$$";
    assert Flatten(kept) == "$" + "$ $$;$$" == "$$ $$;$$";
  }

  lemma TwoBlocks(a: string, b: string)
    requires WellFormed(Block(a)) && Closed(Block(a)) && !IsSpace(a[|a| - 1])
    requires WellFormed(Block(b)) && !IsSpace(b[|b| - 1])
    ensures Split(a + ";" + b) == [a, b]
  {
    BlockIsCleanStatement(a);
    BlockIsCleanStatement(b);
    CleanStatementSplitsToItself(b);
    SplitOfJoin(a, b);
  }

  /** The newline that ends a comment is dropped with it, so two dollar signs on different lines can
      become a quote: the one statement of this text splits in two when it is split again. */
  lemma SwallowedNewlineBreaksTheRoundTrip()
    ensures var s := "$--c\n$ $$;$$";
            && Split(s) == ["$$ $$;$$"]
            && Split(Join(Split(s))) == ["$$ $$", "$$"]
            && DollarsMeet(Kept(Tokens(s)))
  {
    hide Tokens, Kept, Pieces, Statements, Trim;
    WitnessKept();
    WitnessPieces();
    assert "$$ $$"[2..] == " $$" && BlockExtent(" $$") == Extent(3, true);
    TwoBlocks("$$ $$", "$$");
    assert "$$ $$" + ";" + "$$" == "$$ $$;$$";
    SingleStatement("$$ $$;$$");
    assert Fuses(Kept(Tokens("$--c\n$ $$;$$"))[0], Kept(Tokens("$--c\n$ $$;$$"))[1]);
  }

  lemma SingleStatement(st: string)
    requires st != "" && !IsSpace(st[0]) && !IsSpace(st[|st| - 1])
    ensures Statements([st]) == [st]
  {
    StatementsCons(st, []);
    assert [st] + [] == [st];
  }
}
