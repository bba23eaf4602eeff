/** Replacing e-mail addresses in a text (src/shared/pii-redact.ts:15, 43-44). */
module EmailScrubber {

  // ----- The language of the pattern -----

  predicate Letter(c: char) {
    'a' <= c <= 'z' || 'A' <= c <= 'Z'
  }

  predicate DomainChar(c: char) {
    Letter(c) || '0' <= c <= '9' || c == '.' || c == '-'
  }

  predicate LocalChar(c: char) {
    DomainChar(c) || c == '_' || c == '%' || c == '+'
  }

  predicate All(s: string, allowed: char -> bool) {
    forall i | 0 <= i < |s| :: allowed(s[i])
  }

  predicate SplitsAt(e: string, at: nat, dot: nat) {
    && 0 < at && at + 1 < dot && dot + 3 <= |e|
    && All(e[..at], LocalChar)
    && e[at] == '@'
    && All(e[at + 1..dot], DomainChar)
    && e[dot] == '.'
    && All(e[dot + 1..], Letter)
  }

  /** [a-zA-Z0-9._%+-]+@[a-zA-Z0-9.-]+\.[a-zA-Z]{2,} */
  ghost predicate IsEmail(e: string) {
    exists at: nat, dot: nat :: SplitsAt(e, at, dot)
  }

  lemma PartsOfAnEmail(e: string, at: nat, dot: nat)
    ensures SplitsAt(e, at, dot) <==>
              && 0 < at && at + 1 < dot && dot + 3 <= |e| && e[at] == '@' && e[dot] == '.'
              && (forall i | 0 <= i < at ::
                    'a' <= e[i] <= 'z' || 'A' <= e[i] <= 'Z' || '0' <= e[i] <= '9'
                    || e[i] == '.' || e[i] == '_' || e[i] == '%' || e[i] == '+' || e[i] == '-')
              && (forall i | at < i < dot ::
                    'a' <= e[i] <= 'z' || 'A' <= e[i] <= 'Z' || '0' <= e[i] <= '9' || e[i] == '.' || e[i] == '-')
              && (forall i | dot < i < |e| :: 'a' <= e[i] <= 'z' || 'A' <= e[i] <= 'Z')
  {
    if SplitsAt(e, at, dot) {
      EmailCharacters(e, at, dot);
    } else if 0 < at && at + 1 < dot && dot + 3 <= |e| {
      assert All(e[..at], LocalChar) <==> forall i | 0 <= i < at :: LocalChar(e[i]);
      assert All(e[dot + 1..], Letter) <==> forall i | dot < i < |e| :: Letter(e[i]) by {
        assert forall i | dot < i < |e| :: e[dot + 1..][i - dot - 1] == e[i];
      }
      assert All(e[at + 1..dot], DomainChar) <==> forall i | at < i < dot :: DomainChar(e[i]) by {
        assert forall i | at < i < dot :: e[at + 1..dot][i - at - 1] == e[i];
      }
    }
  }

  /** The same in characters: a local part, an '@', a domain, and the dot and letters of a top-level domain. */
  lemma EmailLanguage(e: string)
    ensures IsEmail(e) <==> exists at: nat, dot: nat ::
              && 0 < at && at + 1 < dot && dot + 3 <= |e| && e[at] == '@' && e[dot] == '.'
              && (forall i | 0 <= i < at ::
                    'a' <= e[i] <= 'z' || 'A' <= e[i] <= 'Z' || '0' <= e[i] <= '9'
                    || e[i] == '.' || e[i] == '_' || e[i] == '%' || e[i] == '+' || e[i] == '-')
              && (forall i | at < i < dot ::
                    'a' <= e[i] <= 'z' || 'A' <= e[i] <= 'Z' || '0' <= e[i] <= '9' || e[i] == '.' || e[i] == '-')
              && (forall i | dot < i < |e| :: 'a' <= e[i] <= 'z' || 'A' <= e[i] <= 'Z')
  {
    forall at: nat, dot: nat { PartsOfAnEmail(e, at, dot); }
    hide SplitsAt;
  }

  // ----- How the pattern is matched at one position -----

  /** A greedy repetition: the longest prefix of allowed characters. */
  function Run(s: string, allowed: char -> bool): (n: nat)
    ensures n <= |s| && All(s[..n], allowed) && (n < |s| ==> !allowed(s[n]))
  {
    if s == "" || !allowed(s[0]) then 0
    else
      var n := Run(s[1..], allowed);
      assert s[..n + 1] == [s[0]] + s[1..][..n];
      n + 1
  }

  predicate DotAt(t: string, k: nat) {
    k < |t| && t[k] == '.' && Run(t[k + 1..], Letter) >= 2
  }

  /** The domain gives characters back until a dot and a top-level domain follow. */
  function BackOff(t: string, k: nat): nat {
    if k == 0 then 0
    else if DotAt(t, k) then k + 1 + Run(t[k + 1..], Letter)
    else BackOff(t, k - 1)
  }

  /** The length of the match that starts with the text, or 0. */
  function MatchEnd(s: string): nat {
    var local := Run(s, LocalChar);
    if local == 0 || local == |s| || s[local] != '@' then 0
    else
      var t := s[local + 1..];
      var end := BackOff(t, Run(t, DomainChar));
      if end == 0 then 0 else local + 1 + end
  }

  // ----- The match is the longest address -----

  lemma {:induction false} BackOffStopsAtTheLastDot(t: string, d: nat) returns (k: nat)
    ensures k <= d
    ensures forall j: nat | k < j <= d :: !DotAt(t, j)
    ensures if k == 0 then BackOff(t, d) == 0 else DotAt(t, k) && BackOff(t, d) == k + 1 + Run(t[k + 1..], Letter)
  {
    hide Run, DotAt;
    if d == 0 || DotAt(t, d) { return d; }
    k := BackOffStopsAtTheLastDot(t, d - 1);
  }

  lemma RunIsAtLeast(s: string, allowed: char -> bool, n: nat)
    requires n <= |s| && forall i | 0 <= i < n :: allowed(s[i])
    ensures n <= Run(s, allowed)
  {
  }

  lemma BackOffFindsADomain(t: string) returns (k: nat)
    requires BackOff(t, Run(t, DomainChar)) > 0
    ensures var end := BackOff(t, Run(t, DomainChar));
            && 1 <= k && k + 3 <= end <= |t| && t[k] == '.'
            && (forall i | 0 <= i < k :: DomainChar(t[i]))
            && (forall i | k < i < end :: Letter(t[i]))
  {
    k := BackOffStopsAtTheLastDot(t, Run(t, DomainChar));
    var top := t[k + 1..];
    RunCharacters(t, DomainChar);
    RunCharacters(top, Letter);
    hide Run, BackOff, Letter, DomainChar;
    assert forall i | k < i < |t| :: t[i] == top[i - k - 1];
  }

  lemma MatchIsAnEmail(s: string)
    requires MatchEnd(s) > 0
    ensures MatchEnd(s) <= |s| && IsEmail(s[..MatchEnd(s)])
  {
    hide BackOff, Run, Letter, DomainChar, LocalChar, IsEmail;
    var local, end := Run(s, LocalChar), MatchEnd(s);
    var t := s[local + 1..];
    var k := BackOffFindsADomain(t);
    RunCharacters(s, LocalChar);
    hide MatchEnd;
    var e, dot := s[..end], local + 1 + k;
    assert forall i | local < i < end :: e[i] == t[i - local - 1];
    CharactersOfAnEmail(e, local, dot);
  }

  lemma RunCharacters(s: string, allowed: char -> bool)
    ensures forall i | 0 <= i < Run(s, allowed) :: allowed(s[i])
  {
    var n := Run(s, allowed);
    assert forall i | 0 <= i < n :: s[..n][i] == s[i];
  }

  lemma CharactersOfAnEmail(e: string, at: nat, dot: nat)
    requires 0 < at && at + 1 < dot && dot + 3 <= |e| && e[at] == '@' && e[dot] == '.'
    requires forall i | 0 <= i < at :: LocalChar(e[i])
    requires forall i | at < i < dot :: DomainChar(e[i])
    requires forall i | dot < i < |e| :: Letter(e[i])
    ensures IsEmail(e)
  {
    hide LocalChar, DomainChar, Letter;
    assert SplitsAt(e, at, dot);
  }

  lemma BackOffReaches(t: string, k: nat, m: nat)
    requires 1 <= k && 2 <= m && k + 1 + m <= |t| && t[k] == '.'
    requires forall i | 0 <= i < k :: DomainChar(t[i])
    requires forall i | k < i < k + 1 + m :: Letter(t[i])
    ensures BackOff(t, Run(t, DomainChar)) >= k + 1 + m
  {
    var top := t[k + 1..];
    assert forall i | 0 <= i < m :: Letter(top[i]) by { assert forall i | 0 <= i < m :: top[i] == t[k + 1 + i]; }
    RunIsAtLeast(top, Letter, m);
    RunIsAtLeast(t, DomainChar, k);
    assert DotAt(t, k);
    hide Run, Letter, BackOff;
    var last := BackOffStopsAtTheLastDot(t, Run(t, DomainChar));
    assert k <= last;
    if last > k {
      assert !Letter('.') by { DotIsNoLetter(); }
      assert last >= k + 1 + m;
    }
  }

  lemma DotIsNoLetter()
    ensures !Letter('.') && !LocalChar('@')
  {
  }

  lemma EmailPrefixIsMatched(s: string, n: nat)
    requires n <= |s| && IsEmail(s[..n])
    ensures n <= MatchEnd(s)
  {
    var e := s[..n];
    var at: nat, dot: nat :| SplitsAt(e, at, dot);
    hide Run, BackOff, Letter, DomainChar, LocalChar, IsEmail;
    EmailCharacters(e, at, dot);
    hide SplitsAt;
    LocalRunEndsAtTheSign(s, at);
    BackOffReaches(s[at + 1..], dot - at - 1, n - dot - 1);
  }

  lemma LocalRunEndsAtTheSign(s: string, at: nat)
    requires at < |s| && s[at] == '@' && forall i | 0 <= i < at :: LocalChar(s[i])
    ensures Run(s, LocalChar) == at
  {
    var n := Run(s, LocalChar);
    RunIsAtLeast(s, LocalChar, at);
    DotIsNoLetter();
    assert forall i | 0 <= i < n :: s[..n][i] == s[i];
    hide LocalChar, Run;
  }

  lemma EmailCharacters(e: string, at: nat, dot: nat)
    requires SplitsAt(e, at, dot)
    ensures 0 < at && at + 1 < dot && dot + 3 <= |e| && e[at] == '@' && e[dot] == '.'
    ensures forall i | 0 <= i < at :: LocalChar(e[i])
    ensures forall i | at < i < dot :: DomainChar(e[i])
    ensures forall i | dot < i < |e| :: Letter(e[i])
  {
    assert forall i | 0 <= i < at :: e[..at][i] == e[i];
    assert forall i | at < i < dot :: e[at + 1..dot][i - at - 1] == e[i];
    assert forall i | dot < i < |e| :: e[dot + 1..][i - dot - 1] == e[i];
    hide LocalChar, DomainChar, Letter;
  }

  /** The backtracking match is leftmost and longest: it takes the longest prefix that is an address. */
  lemma MatchIsTheLongestEmail(s: string)
    ensures MatchEnd(s) == 0 <==> forall n: nat | n <= |s| :: !IsEmail(s[..n])
    ensures MatchEnd(s) > 0 ==> MatchEnd(s) <= |s| && IsEmail(s[..MatchEnd(s)])
    ensures forall n: nat | n <= |s| && IsEmail(s[..n]) :: n <= MatchEnd(s)
  {
    hide IsEmail, MatchEnd;
    if MatchEnd(s) > 0 { MatchIsAnEmail(s); }
    forall n: nat | n <= |s| && IsEmail(s[..n]) ensures 0 < n <= MatchEnd(s) {
      EmailPrefixIsMatched(s, n);
      EmailIsNotEmpty(s[..n]);
    }
  }

  lemma EmailIsNotEmpty(e: string)
    requires IsEmail(e)
    ensures |e| > 0
  {
  }

  // ----- Replacing all matches -----

  function Redacted(): (r: string)
    ensures |r| == 10
  {
    "[REDACTED]"
  }

  /** json.replace(EMAIL_REGEX, "[REDACTED]") */
  function Scrub(s: string): string {
    if s == "" then ""
    else if 0 < MatchEnd(s) <= |s| then Redacted() + Scrub(s[MatchEnd(s)..])
    else [s[0]] + Scrub(s[1..])
  }

  ghost predicate HasEmail(s: string) {
    exists i: nat, j: nat | i <= j <= |s| :: IsEmail(s[i..j])
  }

  /** It has an '@', which replacements lack, but no bracket, which delimits them. */
  predicate Unbracketed(e: string) {
    '[' !in e && ']' !in e && '@' in e
  }

  lemma EmailHasNoBrackets(e: string)
    requires IsEmail(e)
    ensures Unbracketed(e)
  {
    var at: nat, dot: nat :| SplitsAt(e, at, dot);
    EmailCharacters(e, at, dot);
    forall i | 0 <= i < |e| ensures e[i] != '[' && e[i] != ']' {
      assert i < at || i == at || at < i < dot || i == dot || dot < i;
    }
    assert e[at] in e;
  }

  /** Up to the first bracket the output is the input. */
  lemma {:induction false} OutputStartsLikeTheInput(s: string, n: nat)
    requires n <= |Scrub(s)| && '[' !in Scrub(s)[..n]
    ensures n <= |s| && Scrub(s)[..n] == s[..n]
  {
    hide MatchEnd;
    if n > 0 {
      assert Scrub(s)[..n][0] == Scrub(s)[0];
      assert !(0 < MatchEnd(s) <= |s|);
      var rest := Scrub(s[1..]);
      assert Scrub(s)[..n] == [s[0]] + rest[..n - 1];
      assert forall c | c in rest[..n - 1] :: c in Scrub(s)[..n];
      OutputStartsLikeTheInput(s[1..], n - 1);
      assert s[..n] == [s[0]] + s[1..][..n - 1];
    }
  }

  /** No part of the output is an address: replacements neither contain nor complete one. */
  lemma {:induction false} ScrubbedTextHasNoEmail(s: string)
    ensures !HasEmail(Scrub(s))
  {
    hide IsEmail, MatchEnd;
    forall i: nat, j: nat | i <= j <= |Scrub(s)| ensures !IsEmail(Scrub(s)[i..j]) {
      if IsEmail(Scrub(s)[i..j]) {
        EmailHasNoBrackets(Scrub(s)[i..j]);
        EmailIsNotEmpty(Scrub(s)[i..j]);
        NoEmailAt(s, i, Scrub(s)[i..j]);
      }
    }
  }

  lemma ScrubStep(s: string)
    requires s != ""
    ensures MatchEnd(s) <= |s|
    ensures MatchEnd(s) > 0 ==> Scrub(s) == Redacted() + Scrub(s[MatchEnd(s)..])
    ensures MatchEnd(s) == 0 ==> Scrub(s) == [s[0]] + Scrub(s[1..])
  {
    hide MatchEnd;
    MatchIsTheLongestEmail(s);
  }

  /** Scrubbing a text that starts with an address, whose longest reading has n characters, and one that does not. */
  lemma ScrubLaws(s: string, n: nat)
    requires n <= |s| && s != "" && forall k: nat | n < k <= |s| :: !IsEmail(s[..k])
    ensures IsEmail(s[..n]) ==> Scrub(s) == "[REDACTED]" + Scrub(s[n..])
    ensures n == 0 ==> Scrub(s) == [s[0]] + Scrub(s[1..])
    ensures Scrub("") == ""
  {
    hide IsEmail, MatchEnd;
    MatchIsTheLongestEmail(s);
    ScrubStep(s);
    if n == 0 && MatchEnd(s) > 0 { assert false; }
    if IsEmail(s[..n]) { EmailIsNotEmpty(s[..n]); }
  }

  predicate PartOf(e: string, s: string, i: nat) {
    i + |e| <= |s| && s[i..i + |e|] == e
  }

  lemma {:induction false} NoEmailAt(s: string, i: nat, e: string)
    requires PartOf(e, Scrub(s), i) && Unbracketed(e) && e != ""
    ensures !IsEmail(e)
    decreases |s|
  {
    hide IsEmail, MatchEnd, Scrub, Redacted, Unbracketed, PartOf;
    NothingIsPartOfNothing(s, i, e);
    ScrubStep(s);
    if MatchEnd(s) > 0 {
      var rest := s[MatchEnd(s)..];
      OutsideTheReplacement(Scrub(rest), i, e);
      PartOfTail(Redacted(), Scrub(rest), i, e);
      NoEmailAt(rest, i - 10, e);
    } else if i > 0 {
      PartOfTail([s[0]], Scrub(s[1..]), i, e);
      NoEmailAt(s[1..], i - 1, e);
    } else {
      NoEmailAtTheStart(s, e);
    }
  }

  lemma NothingIsPartOfNothing(s: string, i: nat, e: string)
    requires PartOf(e, Scrub(s), i) && e != ""
    ensures s != ""
  {
  }

  lemma PartOfTail(a: string, b: string, i: nat, e: string)
    requires |a| <= i && PartOf(e, a + b, i)
    ensures PartOf(e, b, i - |a|)
  {
    assert (a + b)[i..i + |e|] == b[i - |a|..i - |a| + |e|];
  }

  lemma NoEmailAtTheStart(s: string, e: string)
    requires MatchEnd(s) == 0 && PartOf(e, Scrub(s), 0) && Unbracketed(e)
    ensures !IsEmail(e)
  {
    hide IsEmail, MatchEnd, Scrub;
    assert Scrub(s)[0..|e|] == Scrub(s)[..|e|];
    OutputStartsLikeTheInput(s, |e|);
    MatchIsTheLongestEmail(s);
  }

  /** A part that has an '@' and no bracket does not touch a replacement in front of it. */
  lemma OutsideTheReplacement(rest: string, i: nat, e: string)
    requires PartOf(e, Redacted() + rest, i) && Unbracketed(e)
    ensures i >= 10
  {
    var out := Redacted() + rest;
    var k :| 0 <= k < |e| && e[k] == '@';
    assert forall p | i <= p < i + |e| :: out[p] == e[p - i] && e[p - i] in e;
    assert forall p | 0 <= p < 10 :: out[p] != '@';
    assert out[9] == ']';
    assert out[i + k] == '@';
  }

  lemma {:induction false} TextWithoutEmailIsKept(s: string)
    requires !HasEmail(s)
    ensures Scrub(s) == s
  {
    hide IsEmail, MatchEnd;
    if s != "" {
      MatchIsTheLongestEmail(s);
      forall n: nat | n <= |s| ensures !IsEmail(s[..n]) { assert s[0..n] == s[..n]; }
      forall i: nat, j: nat | i <= j <= |s[1..]| ensures !IsEmail(s[1..][i..j]) {
        assert s[1..][i..j] == s[i + 1..j + 1];
      }
      TextWithoutEmailIsKept(s[1..]);
    }
  }

  lemma ScrubbingIsIdempotent(s: string)
    ensures Scrub(Scrub(s)) == Scrub(s)
  {
    hide HasEmail, Scrub;
    ScrubbedTextHasNoEmail(s);
    TextWithoutEmailIsKept(Scrub(s));
  }

  /** Scrubbing changes a text exactly when it contains an address. */
  lemma OnlyEmailsAreScrubbed(s: string)
    ensures Scrub(s) == s <==> !HasEmail(s)
  {
    hide HasEmail, Scrub;
    ScrubbedTextHasNoEmail(s);
    if !HasEmail(s) { TextWithoutEmailIsKept(s); }
  }

  // ----- What is kept -----

  datatype Piece = Kept(c: char) | Email(text: string)

  function Source(pieces: seq<Piece>): string {
    if pieces == [] then ""
    else (if pieces[0].Kept? then [pieces[0].c] else pieces[0].text) + Source(pieces[1..])
  }

  function Output(pieces: seq<Piece>): string {
    if pieces == [] then ""
    else (if pieces[0].Kept? then [pieces[0].c] else Redacted()) + Output(pieces[1..])
  }

  /** Replaced pieces are the longest addresses at their place; kept characters start no address. */
  ghost predicate LeftmostLongest(pieces: seq<Piece>) {
    forall k | 0 <= k < |pieces| :: RightlyTreated(pieces[k], Source(pieces[k..]))
  }

  ghost predicate RightlyTreated(piece: Piece, here: string) {
    if piece.Kept? then forall n: nat | n <= |here| :: !IsEmail(here[..n])
    else IsEmail(piece.text) && forall n: nat | n <= |here| && IsEmail(here[..n]) :: n <= |piece.text|
  }

  lemma OneMorePiece(first: Piece, rest: seq<Piece>)
    requires LeftmostLongest(rest) && RightlyTreated(first, Source([first] + rest))
    ensures LeftmostLongest([first] + rest)
  {
    hide RightlyTreated, Source;
    var pieces := [first] + rest;
    assert pieces[0..] == pieces;
    forall k | 0 < k < |pieces| ensures pieces[k..] == rest[k - 1..] && pieces[k] == rest[k - 1] {}
  }

  lemma ConsOfPieces(first: Piece, rest: seq<Piece>)
    ensures Source([first] + rest) == (if first.Kept? then [first.c] else first.text) + Source(rest)
    ensures Output([first] + rest) == (if first.Kept? then [first.c] else Redacted()) + Output(rest)
  {
    assert ([first] + rest)[1..] == rest;
  }

  /** The pieces spell the text and its scrubbed form. */
  ghost predicate Spells(pieces: seq<Piece>, s: string) {
    Source(pieces) == s && Output(pieces) == Scrub(s) && LeftmostLongest(pieces)
  }

  lemma EmailInFront(s: string, rest: seq<Piece>)
    requires MatchEnd(s) > 0 && MatchEnd(s) <= |s| && Spells(rest, s[MatchEnd(s)..])
    ensures Spells([Email(s[..MatchEnd(s)])] + rest, s)
  {
    hide IsEmail, MatchEnd, Scrub, LeftmostLongest, Source, Output, Redacted;
    var n, first := MatchEnd(s), Email(s[..MatchEnd(s)]);
    MatchIsTheLongestEmail(s);
    ScrubStep(s);
    ConsOfPieces(first, rest);
    assert s == s[..n] + s[n..];
    OneMorePiece(first, rest);
  }

  lemma KeptInFront(s: string, rest: seq<Piece>)
    requires s != "" && MatchEnd(s) == 0 && Spells(rest, s[1..])
    ensures Spells([Kept(s[0])] + rest, s)
  {
    hide IsEmail, MatchEnd, Scrub, LeftmostLongest, Source, Output, Redacted;
    var first := Kept(s[0]);
    MatchIsTheLongestEmail(s);
    ScrubStep(s);
    ConsOfPieces(first, rest);
    assert s == [s[0]] + s[1..];
    OneMorePiece(first, rest);
  }

  /** The output is the input with addresses, found leftmost and longest, replaced and nothing else changed. */
  lemma {:induction false} ScrubReplacesLeftmostLongest(s: string) returns (pieces: seq<Piece>)
    ensures Source(pieces) == s && Output(pieces) == Scrub(s) && LeftmostLongest(pieces)
    decreases |s|
  {
    if s == "" { return []; }
    hide IsEmail, MatchEnd, Scrub, LeftmostLongest, Source, Output;
    ScrubStep(s);
    var n := MatchEnd(s);
    if n > 0 {
      var rest := ScrubReplacesLeftmostLongest(s[n..]);
      EmailInFront(s, rest);
      pieces := [Email(s[..n])] + rest;
    } else {
      var rest := ScrubReplacesLeftmostLongest(s[1..]);
      KeptInFront(s, rest);
      pieces := [Kept(s[0])] + rest;
    }
  }
}
