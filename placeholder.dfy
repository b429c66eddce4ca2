/** The `{{name}}` placeholder syntax: the token text, the highlighting
    pattern `/\{\{([a-zA-Z0-9_]+)\}\}/g` of the editor's variable mark, and a
    structured view of markup as literal text interleaved with tokens. */
module Placeholder {
  import opened Text
  import opened Types

  /** The token for a placeholder name, as written by the editor and searched
      for by every preview. No check is made on `name`. */
  function Token(name: string): string {
    "{{" + name + "}}"
  }

  /** What the highlighting pattern accepts between the braces. */
  predicate IsIdentifier(name: string) {
    |name| > 0 && forall i :: 0 <= i < |name| ==> IsWordChar(name[i])
  }

  /** Length of the longest run of `\w` characters at the front of `s`. */
  function WordRun(s: string): (k: nat)
    ensures k <= |s|
  {
    if s != [] && IsWordChar(s[0]) then 1 + WordRun(s[1..]) else 0
  }

  /** The run is made of word characters and stops at the first other one. */
  lemma {:induction false} WordRunMaximal(s: string)
    ensures forall i :: 0 <= i < WordRun(s) ==> IsWordChar(s[i])
    ensures WordRun(s) < |s| ==> !IsWordChar(s[WordRun(s)])
    decreases |s|
  {
    if s != [] && IsWordChar(s[0]) {
      WordRunMaximal(s[1..]);
      forall i | 0 < i < WordRun(s) ensures IsWordChar(s[i]) {
        assert s[1..][i - 1] == s[i];
      }
      if WordRun(s) < |s| {
        assert s[1..][WordRun(s) - 1] == s[WordRun(s)];
      }
    }
  }

  /** The highlighting pattern tried at the front of `s`: the captured name,
      if `s` starts with a placeholder. */
  function MatchAtFront(s: string): (m: Option<string>)
    ensures m.Some? ==> |m.value| + 4 <= |s|
  {
    if |s| >= 2 && s[0] == '{' && s[1] == '{' then
      var k := WordRun(s[2..]);
      if k >= 1 && k + 4 <= |s| && s[2 + k] == '}' && s[3 + k] == '}' then
        Some(s[2..2 + k])
      else None
    else None
  }

  /** A match is the token of an identifier at the front of `s`. */
  lemma MatchAtFrontSound(s: string)
    ensures MatchAtFront(s).Some? ==>
      IsIdentifier(MatchAtFront(s).value) && s[..|MatchAtFront(s).value| + 4] == Token(MatchAtFront(s).value)
  {
    if MatchAtFront(s).Some? {
      var k := WordRun(s[2..]);
      WordRunMaximal(s[2..]);
      var n := s[2..2 + k];
      forall i | 0 <= i < |n| ensures IsWordChar(n[i]) {
        assert n[i] == s[2..][i];
      }
      assert s[..k + 4] == "{{" + n + "}}";
    }
  }

  /** The pattern matches exactly the tokens of identifiers: a string that
      starts with the token of an identifier matches, capturing that name. */
  lemma MatchAtFrontToken(name: string, rest: string)
    requires IsIdentifier(name)
    ensures MatchAtFront(Token(name) + rest) == Some(name)
  {
    var s := Token(name) + rest;
    var k := WordRun(s[2..]);
    WordRunMaximal(s[2..]);
    assert forall i :: 0 <= i < |name| ==> s[2..][i] == name[i];
    assert s[2..][|name|] == '}';
    assert k == |name|;
    assert s[2..2 + k] == name;
  }

  /** One match of the pattern: the captured name and where the token starts. */
  datatype Occurrence = Occurrence(name: string, start: nat)

  /** The matches of the global pattern in `s`, left to right, where `s`
      starts at position `offset` of the scanned text. After a match the
      search resumes right behind it; otherwise one character further. */
  function ScanFrom(s: string, offset: nat): seq<Occurrence>
    decreases |s|
  {
    if s == [] then []
    else
      match MatchAtFront(s)
      case Some(n) => [Occurrence(n, offset)] + ScanFrom(s[|n| + 4..], offset + |n| + 4)
      case None => ScanFrom(s[1..], offset + 1)
  }

  /** The pattern matches in `s` at `o.start`, `s` being the text from
      position `offset` on, and captures `o.name`. */
  predicate MatchedAt(s: string, offset: nat, o: Occurrence) {
    offset <= o.start <= offset + |s| && MatchAtFront(s[o.start - offset..]) == Some(o.name)
  }

  /** A match found in a suffix is a match in the whole text. */
  lemma MatchedAtShift(s: string, k: nat, offset: nat, o: Occurrence)
    requires k <= |s| && MatchedAt(s[k..], offset + k, o)
    ensures MatchedAt(s, offset, o)
  {
    assert s[k..][o.start - (offset + k)..] == s[o.start - offset..];
  }

  /** One step of the scan. */
  lemma ScanFromCons(s: string, offset: nat)
    requires s != []
    ensures MatchAtFront(s).Some? ==>
      var n := MatchAtFront(s).value;
      ScanFrom(s, offset) == [Occurrence(n, offset)] + ScanFrom(s[|n| + 4..], offset + |n| + 4)
    ensures MatchAtFront(s).None? ==> ScanFrom(s, offset) == ScanFrom(s[1..], offset + 1)
  {
  }

  /** The `j`-th occurrence the scan reports is a match of the pattern at
      its position. */
  lemma {:induction false} ScanFromMatchesAt(s: string, offset: nat, j: nat)
    requires j < |ScanFrom(s, offset)|
    ensures MatchedAt(s, offset, ScanFrom(s, offset)[j])
    decreases |s|
  {
    ScanFromCons(s, offset);
    var m := MatchAtFront(s);
    var k: nat := if m.Some? then |m.value| + 4 else 1;
    var tail := ScanFrom(s[k..], offset + k);
    if m.Some? && j == 0 {
      assert s[0..] == s;
    } else {
      var i: nat := if m.Some? then j - 1 else j;
      assert ScanFrom(s, offset)[j] == tail[i];
      ScanFromMatchesAt(s[k..], offset + k, i);
      MatchedAtShift(s, k, offset, tail[i]);
    }
  }

  /** Every occurrence the scan reports is a match of the pattern at that
      position. */
  lemma ScanFromMatches(s: string, offset: nat)
    ensures forall j :: 0 <= j < |ScanFrom(s, offset)| ==> MatchedAt(s, offset, ScanFrom(s, offset)[j])
  {
    forall j | 0 <= j < |ScanFrom(s, offset)| ensures MatchedAt(s, offset, ScanFrom(s, offset)[j]) {
      ScanFromMatchesAt(s, offset, j);
    }
  }

  /** The occurrences come left to right and do not overlap. */
  lemma {:induction false} ScanFromOrdered(s: string, offset: nat)
    ensures forall j :: 0 <= j < |ScanFrom(s, offset)| ==> offset <= ScanFrom(s, offset)[j].start
    ensures forall j :: 0 <= j < |ScanFrom(s, offset)| - 1 ==>
      ScanFrom(s, offset)[j].start + |ScanFrom(s, offset)[j].name| + 4 <= ScanFrom(s, offset)[j + 1].start
    decreases |s|
  {
    if s != [] {
      ScanFromCons(s, offset);
      match MatchAtFront(s)
      case Some(n) =>
        var rest := ScanFrom(s[|n| + 4..], offset + |n| + 4);
        ScanFromOrdered(s[|n| + 4..], offset + |n| + 4);
        var r := [Occurrence(n, offset)] + rest;
        assert ScanFrom(s, offset) == r;
        assert forall j :: 1 <= j < |r| ==> r[j] == rest[j - 1];
      case None =>
        ScanFromOrdered(s[1..], offset + 1);
    }
  }

  /** The global matches of the highlighting pattern in `s`, left to right. */
  function Scan(s: string): (r: seq<Occurrence>)
    ensures 5 * |r| <= |s|
  {
    ScanFromBound(s, 0);
    ScanFrom(s, 0)
  }

  /** Each match takes at least the five characters of `{{x}}`, and matches
      do not overlap. */
  lemma {:induction false} ScanFromBound(s: string, offset: nat)
    ensures 5 * |ScanFrom(s, offset)| <= |s|
    decreases |s|
  {
    if s != [] {
      ScanFromCons(s, offset);
      match MatchAtFront(s)
      case Some(n) =>
        MatchAtFrontSound(s);
        ScanFromBound(s[|n| + 4..], offset + |n| + 4);
      case None => ScanFromBound(s[1..], offset + 1);
    }
  }

  /** A piece of markup: literal text, or the token of a placeholder name. */
  datatype Piece = Lit(text: string) | Var(name: string)

  predicate NoBrace(s: string) {
    forall i :: 0 <= i < |s| ==> s[i] != '{'
  }

  /** Literal text holds no `{`, and every token names an identifier: the
      markup a template author produces by assigning well-named fields. */
  predicate WellFormedPiece(p: Piece) {
    match p
    case Lit(t) => NoBrace(t)
    case Var(n) => IsIdentifier(n)
  }

  predicate WellFormed(ps: seq<Piece>) {
    forall i :: 0 <= i < |ps| ==> WellFormedPiece(ps[i])
  }

  function RenderPiece(p: Piece): string {
    match p
    case Lit(t) => t
    case Var(n) => Token(n)
  }

  /** The markup string the pieces stand for. */
  function Render(ps: seq<Piece>): string {
    if ps == [] then [] else RenderPiece(ps[0]) + Render(ps[1..])
  }

  lemma {:induction false} RenderAppend(xs: seq<Piece>, ys: seq<Piece>)
    ensures Render(xs + ys) == Render(xs) + Render(ys)
  {
    if xs == [] {
      assert xs + ys == ys;
    } else {
      assert (xs + ys)[1..] == xs[1..] + ys;
      RenderAppend(xs[1..], ys);
    }
  }

  /** The tokens of the pieces with the positions they get when rendered. */
  function Occurrences(ps: seq<Piece>, offset: nat): seq<Occurrence> {
    if ps == [] then []
    else
      match ps[0]
      case Lit(t) => Occurrences(ps[1..], offset + |t|)
      case Var(n) => [Occurrence(n, offset)] + Occurrences(ps[1..], offset + |n| + 4)
  }

  lemma {:induction false} ScanSkipsLiteral(t: string, s: string, offset: nat)
    requires NoBrace(t)
    ensures ScanFrom(t + s, offset) == ScanFrom(s, offset + |t|)
    decreases |t|
  {
    if t == [] {
      assert t + s == s;
    } else {
      var u := t + s;
      assert u[0] == t[0] && u[1..] == t[1..] + s;
      NoMatchWithoutBrace(u);
      ScanFromCons(u, offset);
      NoBraceTail(t);
      ScanSkipsLiteral(t[1..], s, offset + 1);
    }
  }

  lemma NoMatchWithoutBrace(u: string)
    requires u != [] && u[0] != '{'
    ensures MatchAtFront(u) == None
  {
  }

  lemma NoBraceTail(t: string)
    requires t != [] && NoBrace(t)
    ensures NoBrace(t[1..])
  {
    forall i | 0 <= i < |t[1..]| ensures t[1..][i] != '{' {
      assert t[1..][i] == t[i + 1];
    }
  }

  lemma ScanReadsToken(n: string, s: string, offset: nat)
    requires IsIdentifier(n)
    ensures ScanFrom(Token(n) + s, offset) == [Occurrence(n, offset)] + ScanFrom(s, offset + |n| + 4)
  {
    MatchAtFrontToken(n, s);
    assert (Token(n) + s)[|n| + 4..] == s;
  }

  lemma OccurrencesCons(ps: seq<Piece>, offset: nat)
    requires ps != []
    ensures ps[0].Lit? ==> Occurrences(ps, offset) == Occurrences(ps[1..], offset + |ps[0].text|)
    ensures ps[0].Var? ==>
      Occurrences(ps, offset) == [Occurrence(ps[0].name, offset)] + Occurrences(ps[1..], offset + |ps[0].name| + 4)
  {
  }

  lemma RenderCons(ps: seq<Piece>)
    requires ps != []
    ensures ps[0].Lit? ==> Render(ps) == ps[0].text + Render(ps[1..])
    ensures ps[0].Var? ==> Render(ps) == Token(ps[0].name) + Render(ps[1..])
  {
  }

  lemma ScanLitStep(t: string, r: string, offset: nat, rest: seq<Occurrence>)
    requires NoBrace(t) && ScanFrom(r, offset + |t|) == rest
    ensures ScanFrom(t + r, offset) == rest
  {
    ScanSkipsLiteral(t, r, offset);
  }

  lemma ScanVarStep(n: string, r: string, offset: nat, rest: seq<Occurrence>)
    requires IsIdentifier(n) && ScanFrom(r, offset + |n| + 4) == rest
    ensures ScanFrom(Token(n) + r, offset) == [Occurrence(n, offset)] + rest
  {
    ScanReadsToken(n, r, offset);
  }

  /** Scanning well-formed markup finds exactly its tokens, in order and at
      their rendered positions: the pattern and `Token` agree. */
  lemma {:induction false} ScanRender(ps: seq<Piece>, offset: nat)
    requires WellFormed(ps)
    ensures ScanFrom(Render(ps), offset) == Occurrences(ps, offset)
    decreases |ps|
  {
    if ps != [] {
      WellFormedTail(ps);
      if ps[0].Lit? {
        ScanRender(ps[1..], offset + |ps[0].text|);
        ScanRenderLit(ps, offset);
      } else {
        ScanRender(ps[1..], offset + |ps[0].name| + 4);
        ScanRenderVar(ps, offset);
      }
    }
  }

  lemma ScanRenderLit(ps: seq<Piece>, offset: nat)
    requires ps != [] && ps[0].Lit? && NoBrace(ps[0].text)
    requires ScanFrom(Render(ps[1..]), offset + |ps[0].text|) == Occurrences(ps[1..], offset + |ps[0].text|)
    ensures ScanFrom(Render(ps), offset) == Occurrences(ps, offset)
  {
    RenderCons(ps);
    OccurrencesCons(ps, offset);
    ScanLitStep(ps[0].text, Render(ps[1..]), offset, Occurrences(ps[1..], offset + |ps[0].text|));
  }

  lemma ScanRenderVar(ps: seq<Piece>, offset: nat)
    requires ps != [] && ps[0].Var? && IsIdentifier(ps[0].name)
    requires ScanFrom(Render(ps[1..]), offset + |ps[0].name| + 4) == Occurrences(ps[1..], offset + |ps[0].name| + 4)
    ensures ScanFrom(Render(ps), offset) == Occurrences(ps, offset)
  {
    RenderCons(ps);
    OccurrencesCons(ps, offset);
    ScanVarStep(ps[0].name, Render(ps[1..]), offset, Occurrences(ps[1..], offset + |ps[0].name| + 4));
  }

  lemma WellFormedTail(ps: seq<Piece>)
    requires ps != [] && WellFormed(ps)
    ensures WellFormedPiece(ps[0]) && WellFormed(ps[1..])
  {
    forall i | 0 <= i < |ps[1..]| ensures WellFormedPiece(ps[1..][i]) {
      assert ps[1..][i] == ps[i + 1];
    }
  }

  /** Scanning the token of an identifier finds that one placeholder,
      spanning the whole token. */
  lemma ScanOfToken(name: string)
    requires IsIdentifier(name)
    ensures Scan(Token(name)) == [Occurrence(name, 0)]
  {
    ScanReadsToken(name, "", 0);
    assert Token(name) + "" == Token(name);
  }

  /** The pieces with every token of `v` replaced by `rep`. */
  function Subst(ps: seq<Piece>, v: string, rep: seq<Piece>): seq<Piece> {
    if ps == [] then []
    else (if ps[0] == Var(v) then rep else [ps[0]]) + Subst(ps[1..], v, rep)
  }

  /** A token never matches the token of a different identifier. */
  lemma TokenMismatch(w: string, b: string, v: string)
    requires IsIdentifier(w) && IsIdentifier(v) && w != v
    requires |Token(w) + b| >= |Token(v)|
    ensures (Token(w) + b)[..|Token(v)|] != Token(v)
  {
    var s := Token(w) + b;
    var pat := Token(v);
    if |w| < |v| {
      assert s[2 + |w|] == '}' && pat[2 + |w|] == v[|w|] && IsWordChar(v[|w|]);
    } else if |w| > |v| {
      assert s[2 + |v|] == w[|v|] && IsWordChar(w[|v|]) && pat[2 + |v|] == '}';
    } else {
      var j :| 0 <= j < |w| && w[j] != v[j];
      assert s[2 + j] == w[j] && pat[2 + j] == v[j];
    }
  }

  lemma IdentifierNoBrace(w: string)
    requires IsIdentifier(w)
    ensures NoBrace(w + "}}")
  {
    var inner := w + "}}";
    forall i | 0 <= i < |inner| ensures inner[i] != '{' {
      if i < |w| { assert inner[i] == w[i] && IsWordChar(w[i]); }
    }
  }

  /** A `{` is copied through when what follows it cannot complete the
      opening of the pattern. */
  lemma ReplaceAllSingleBrace(c: string, pat: string, rep: string)
    requires |pat| >= 2 && pat[1] == '{'
    requires |c| + 1 >= |pat| ==> ("{" + c)[..|pat|] != pat
    ensures ReplaceAll("{" + c, pat, rep) == "{" + ReplaceAll(c, pat, rep)
  {
    var s := "{" + c;
    if |s| >= |pat| {
      assert s[1..] == c;
    } else {
      assert ReplaceAll(c, pat, rep) == c;
    }
  }

  /** The token of another identifier is copied through `replaceAll`. */
  lemma ReplaceAllOtherToken(w: string, b: string, v: string, rep: string)
    requires IsIdentifier(w) && IsIdentifier(v) && w != v
    ensures ReplaceAll(Token(w) + b, Token(v), rep) == Token(w) + ReplaceAll(b, Token(v), rep)
  {
    var pat := Token(v);
    var s1 := "{" + (w + "}}" + b);
    TokenSplit(w, b);
    calc {
      ReplaceAll(Token(w) + b, pat, rep);
      ReplaceAll("{" + s1, pat, rep);
      { OtherTokenHead(w, b, v, rep); }
      "{" + ReplaceAll(s1, pat, rep);
      { OtherTokenTail(w, b, v, rep); }
      "{" + ("{" + (w + "}}") + ReplaceAll(b, pat, rep));
      Token(w) + ReplaceAll(b, pat, rep);
    }
  }

  /** The first `{` of another token cannot start the pattern. */
  lemma OtherTokenHead(w: string, b: string, v: string, rep: string)
    requires IsIdentifier(w) && IsIdentifier(v) && w != v
    ensures ReplaceAll("{" + ("{" + (w + "}}" + b)), Token(v), rep) == "{" + ReplaceAll("{" + (w + "}}" + b), Token(v), rep)
  {
    var s1 := "{" + (w + "}}" + b);
    TokenSplit(w, b);
    if |s1| + 1 >= |Token(v)| {
      TokenMismatch(w, b, v);
    }
    ReplaceAllSingleBrace(s1, Token(v), rep);
  }

  lemma TokenSplit(w: string, b: string)
    ensures Token(w) + b == "{" + ("{" + (w + "}}" + b))
    ensures Token(w) == "{" + ("{" + (w + "}}"))
  {
  }

  /** Past the first `{` of another token, its second `{` and the rest of it
      are copied through as well. */
  lemma OtherTokenTail(w: string, b: string, v: string, rep: string)
    requires IsIdentifier(w) && IsIdentifier(v)
    ensures ReplaceAll("{" + (w + "}}" + b), Token(v), rep) == "{" + (w + "}}") + ReplaceAll(b, Token(v), rep)
  {
    var pat := Token(v);
    var inner := w + "}}";
    var s1 := "{" + (inner + b);
    IdentifierNoBrace(w);
    ReplaceAllSkipsPrefix(inner, b, pat, rep);
    if |s1| >= |pat| {
      assert s1[..|pat|][1] == w[0] && IsWordChar(w[0]);
    }
    ReplaceAllSingleBrace(inner + b, pat, rep);
  }

  /** One step of a preview: `replaceAll` of the token of `v` acts on the
      pieces, replacing exactly the tokens of `v` and nothing else. */
  lemma {:induction false} ReplaceAllRender(ps: seq<Piece>, v: string, rep: seq<Piece>)
    requires WellFormed(ps) && IsIdentifier(v)
    ensures ReplaceAll(Render(ps), Token(v), Render(rep)) == Render(Subst(ps, v, rep))
    decreases |ps|
  {
    if ps == [] {
    } else {
      var rest := Render(ps[1..]);
      assert WellFormedPiece(ps[0]);
      ReplaceAllRender(ps[1..], v, rep);
      RenderAppend(if ps[0] == Var(v) then rep else [ps[0]], Subst(ps[1..], v, rep));
      match ps[0]
      case Lit(t) =>
        ReplaceAllSkipsPrefix(t, rest, Token(v), Render(rep));
      case Var(n) =>
        if n == v {
          ReplaceAllLeadingMatch(rest, Token(v), Render(rep));
        } else {
          ReplaceAllOtherToken(n, rest, v, Render(rep));
        }
    }
  }
}
