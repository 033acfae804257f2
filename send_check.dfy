/** The client's test for an empty compose box. The box's inner markup,
    with every `<br>` removed and then trimmed, is the message; the send is
    refused when that message is empty or when it is nothing but `&nbsp;`
    entities, tags and whitespace. */
module SendCheck {
  import opened Text

  /** `s[..n]` is a match of `<br\s*\/?>` with the `i` flag: `<`, the
      letters `b` and `r` in either case, a run of whitespace, at most one
      `/`, then `>`. */
  predicate BrAt(s: string, n: nat) {
    && 4 <= n <= |s| && s[0] == '<' && LowerAscii(s[1]) == 'b' && LowerAscii(s[2]) == 'r'
    && s[n - 1] == '>'
    && (forall i :: 3 <= i < n - 2 ==> IsSpace(Js, s[i]))
    && (3 <= n - 2 ==> IsSpace(Js, s[n - 2]) || s[n - 2] == '/')
  }

  /** Length of a match of `<br\s*\/?>` (letters in any case) at the front
      of `s`. The greedy `\s*` never needs to give characters back: a
      whitespace character is neither `/` nor `>`. A prefix of `s` matches
      exactly when it is the one found. */
  function BrMatch(s: string): (r: Option<nat>)
    ensures r.Some? ==> BrAt(s, r.value)
    ensures forall n: nat :: BrAt(s, n) ==> r == Some(n)
  {
    if |s| >= 3 && s[0] == '<' && LowerAscii(s[1]) == 'b' && LowerAscii(s[2]) == 'r' then
      BrCloseMeans(s);
      BrClose(s, 3 + LeadingSpaces(Js, s[3..]))
    else None
  }

  /** The `\/?>` that ends a `<br>` whose whitespace stops at `k`. */
  function BrClose(s: string, k: nat): (r: Option<nat>)
    ensures r.Some? ==> k < r.value <= |s| && s[r.value - 1] == '>'
  {
    if k < |s| && s[k] == '>' then Some(k + 1)
    else if k + 1 < |s| && s[k] == '/' && s[k + 1] == '>' then Some(k + 2)
    else None
  }

  /** After `<br`, the end of the whitespace run decides the match. */
  lemma BrCloseMeans(s: string)
    requires |s| >= 3 && s[0] == '<' && LowerAscii(s[1]) == 'b' && LowerAscii(s[2]) == 'r'
    ensures var r := BrClose(s, 3 + LeadingSpaces(Js, s[3..]));
      && (r.Some? ==> BrAt(s, r.value))
      && forall n: nat :: BrAt(s, n) ==> r == Some(n)
  {
    var t := s[3..];
    var k := 3 + LeadingSpaces(Js, t);
    LeadingSpacesRun(Js, t);
    assert forall i :: 3 <= i < k ==> IsSpace(Js, s[i]) by {
      forall i | 3 <= i < k ensures IsSpace(Js, s[i]) { assert s[i] == t[i - 3]; }
    }
    assert k < |s| ==> !IsSpace(Js, s[k]) by {
      if k < |s| { assert s[k] == t[k - 3]; }
    }
    forall n: nat | BrAt(s, n) ensures BrClose(s, k) == Some(n) {
      assert !IsSpace(Js, '>') && !IsSpace(Js, '/');
    }
  }

  /** `<BR />` and `<br>` match; `<bra>` and `<b r>` do not. */
  lemma ExampleBrMatches()
    ensures BrMatch("<BR />") == Some(6)
    ensures BrMatch("<br>x") == Some(4)
    ensures BrMatch("<bra>").None?
    ensures BrMatch("<b r>").None?
  {
    assert BrAt("<BR />", 6);
    assert BrAt("<br>x", 4);
  }

  /** `s.replace(/<br\s*\/?>/gi, '')`. */
  function StripBr(s: string): string
    decreases |s|
  {
    if s == [] then []
    else match BrMatch(s)
      case Some(n) => StripBr(s[n..])
      case None => [s[0]] + StripBr(s[1..])
  }

  /** The first position of `c` in `s`. */
  function IndexOf(s: string, c: char): (r: Option<nat>)
    ensures r.Some? ==> r.value < |s| && s[r.value] == c && c !in s[..r.value]
    ensures r.None? ==> c !in s
  {
    if s == [] then None
    else if s[0] == c then Some(0)
    else match IndexOf(s[1..], c)
      case Some(j) =>
        assert s[..j + 1] == [s[0]] + s[1..][..j];
        Some(j + 1)
      case None =>
        assert s == [s[0]] + s[1..];
        None
  }

  /** `s[..n]` is a match of `&nbsp;|<[^>]*>`: the entity, or a `<` and
      everything up to and including the first `>` after it. */
  predicate MarkupAt(s: string, n: nat) {
    || (n == 6 && StartsWith(s, "&nbsp;"))
    || (2 <= n <= |s| && s[0] == '<' && s[n - 1] == '>'
        && forall i :: 1 <= i < n - 1 ==> s[i] != '>')
  }

  /** Length of a match of `&nbsp;|<[^>]*>` at the front of `s`: the entity
      is tried first; a tag runs to the first `>`. A prefix of `s` matches
      exactly when it is the one found. */
  function MarkupMatch(s: string): (r: Option<nat>)
    ensures r.Some? ==> 0 < r.value <= |s| && MarkupAt(s, r.value)
    ensures forall n: nat :: MarkupAt(s, n) ==> r == Some(n)
  {
    if StartsWith(s, "&nbsp;") then
      assert s[0] == "&nbsp;"[0];
      Some(6)
    else if s != [] && s[0] == '<' then
      TagMatchMeans(s);
      match IndexOf(s[1..], '>')
      case Some(j) => Some(j + 2)
      case None => None
    else None
  }

  /** A tag ends at the first `>` after its `<`, and there is none without
      one. */
  lemma TagMatchMeans(s: string)
    requires s != [] && s[0] == '<' && !StartsWith(s, "&nbsp;")
    ensures var r := match IndexOf(s[1..], '>') case Some(j) => Some(j + 2) case None => None;
      && (r.Some? ==> 0 < r.value <= |s| && MarkupAt(s, r.value))
      && forall n: nat :: MarkupAt(s, n) ==> r == Some(n)
  {
    var t := s[1..];
    forall n: nat | MarkupAt(s, n)
      ensures IndexOf(t, '>') == Some(n - 2)
    {
      assert s[n - 1] == t[n - 2];
      match IndexOf(t, '>')
      case Some(j) =>
        if j < n - 2 {
          assert s[j + 1] == t[j];
        } else if j > n - 2 {
          assert t[n - 2] in t[..j];
        }
      case None =>
    }
    match IndexOf(t, '>')
    case Some(j) =>
      forall i | 1 <= i < j + 1 ensures s[i] != '>' {
        assert s[i] == t[..j][i - 1];
      }
    case None =>
  }

  /** The entity is matched before a tag; a tag stops at its first `>`,
      and a `<` with no `>` after it starts no match. */
  lemma ExampleMarkupMatches()
    ensures MarkupMatch("&nbsp;x") == Some(6)
    ensures MarkupMatch("<a<b>c>") == Some(5)
    ensures MarkupMatch("<ab").None?
    ensures MarkupMatch("&amp;").None?
  {
    assert MarkupAt("&nbsp;x", 6);
    assert MarkupAt("<a<b>c>", 5);
  }

  /** `s.replace(/&nbsp;|<[^>]*>/g, '')`. */
  function StripMarkup(s: string): string
    decreases |s|
  {
    if s == [] then []
    else match MarkupMatch(s)
      case Some(n) => StripMarkup(s[n..])
      case None => [s[0]] + StripMarkup(s[1..])
  }

  /** The text that is sent: the box's markup without `<br>`, trimmed. */
  function MessageOf(html: string): string {
    Trim(Js, StripBr(html))
  }

  /** The guard of `sendMessage`: nothing is sent for such an input. */
  predicate IsBlankInput(html: string) {
    var message := MessageOf(html);
    message == [] || Trim(Js, StripMarkup(message)) == []
  }

  // ---------------------------------------------------------------------
  // Inputs made only of whitespace, `&nbsp;` and tags are blank.

  /** One token of markup that carries no visible text. */
  datatype Piece = Space(c: char) | Nbsp | Tag(body: string)

  predicate WellFormed(p: Piece) {
    match p
    case Space(c) => IsSpace(Js, c)
    case Nbsp => true
    case Tag(body) => '<' !in body && '>' !in body
  }

  function Spell(p: Piece): string {
    match p
    case Space(c) => [c]
    case Nbsp => "&nbsp;"
    case Tag(body) => "<" + body + ">"
  }

  function Join(ps: seq<Piece>): string {
    if ps == [] then [] else Spell(ps[0]) + Join(ps[1..])
  }

  predicate AllWellFormed(ps: seq<Piece>) {
    forall p :: p in ps ==> WellFormed(p)
  }

  /** The tags `<br>` matches on their own. */
  predicate IsBrTag(p: Piece) {
    p.Tag? && BrMatch(Spell(p)).Some?
  }

  /** A well-formed tag is a `<br>` exactly when the whole of it matches
      `<br\s*\/?>`. */
  lemma BrTagShape(b: string)
    requires WellFormed(Tag(b))
    ensures IsBrTag(Tag(b)) <==> BrAt(Spell(Tag(b)), |b| + 2)
  {
    var x := Spell(Tag(b));
    TagClosedAtEnd(b);
    BrMatchAppend(x, []);
  }

  function DropBr(ps: seq<Piece>): (r: seq<Piece>)
    ensures forall p :: p in r ==> p in ps
  {
    if ps == [] then []
    else if IsBrTag(ps[0]) then DropBr(ps[1..])
    else [ps[0]] + DropBr(ps[1..])
  }

  function DropLeadingSpaces(ps: seq<Piece>): (r: seq<Piece>)
    ensures forall p :: p in r ==> p in ps
  {
    if ps != [] && ps[0].Space? then DropLeadingSpaces(ps[1..]) else ps
  }

  function DropTrailingSpaces(ps: seq<Piece>): (r: seq<Piece>)
    ensures forall p :: p in r ==> p in ps
  {
    if ps != [] && ps[|ps| - 1].Space? then
      assert forall p :: p in ps[..|ps| - 1] ==> p in ps;
      DropTrailingSpaces(ps[..|ps| - 1])
    else ps
  }

  lemma {:induction false} JoinAppend(ps: seq<Piece>, qs: seq<Piece>)
    ensures Join(ps + qs) == Join(ps) + Join(qs)
  {
    if ps == [] {
      assert ps + qs == qs;
    } else {
      assert (ps + qs)[1..] == ps[1..] + qs;
      JoinAppend(ps[1..], qs);
    }
  }

  /** A character that starts no tag is kept by `StripBr`. */
  lemma StripBrKeeps(s: string)
    requires s != [] && s[0] != '<'
    ensures StripBr(s) == [s[0]] + StripBr(s[1..])
  {
  }

  /** Text without `<` passes through `StripBr` unchanged. */
  lemma StripBrPlain(x: string, y: string)
    requires '<' !in x
    ensures StripBr(x + y) == x + StripBr(y)
  {
    StripBrFrom(x, y, 0);
    assert x[0..] == x;
  }

  lemma {:induction false} StripBrFrom(x: string, y: string, i: nat)
    requires i <= |x| && forall j :: i <= j < |x| ==> x[j] != '<'
    ensures StripBr(x[i..] + y) == x[i..] + StripBr(y)
    decreases |x| - i
  {
    if i == |x| {
      assert x[i..] + y == y;
    } else {
      var s := x[i..] + y;
      assert s[0] == x[i];
      StripBrKeeps(s);
      assert s[1..] == x[i + 1..] + y;
      StripBrFrom(x, y, i + 1);
      assert x[i..][1..] == x[i + 1..];
      ConsTail(x[i..], StripBr(y));
    }
  }

  lemma {:induction false} LeadingSpacesAppend(y: string, z: string)
    requires y != [] && !IsSpace(Js, y[|y| - 1])
    ensures LeadingSpaces(Js, y + z) == LeadingSpaces(Js, y)
  {
    if IsSpace(Js, y[0]) {
      assert (y + z)[1..] == y[1..] + z;
      LeadingSpacesAppend(y[1..], z);
    }
  }

  /** A string whose only `>` is its last character. */
  predicate ClosedAtEnd(x: string) {
    x != [] && x[|x| - 1] == '>' && forall i :: 0 <= i < |x| - 1 ==> x[i] != '>'
  }

  lemma BrCloseAppend(x: string, rest: string, k: nat)
    requires ClosedAtEnd(x) && k < |x|
    ensures BrClose(x + rest, k) == BrClose(x, k)
    ensures BrClose(x, k).None? || BrClose(x, k) == Some(|x|)
  {
    var s := x + rest;
    assert s[k] == x[k];
    if k + 1 < |x| {
      assert s[k + 1] == x[k + 1];
    }
  }

  /** Whether `<br>` matches at such a string does not depend on what
      follows it, and a match covers all of it. */
  lemma BrMatchAppend(x: string, rest: string)
    requires ClosedAtEnd(x)
    ensures BrMatch(x + rest) == BrMatch(x)
    ensures BrMatch(x).None? || BrMatch(x) == Some(|x|)
  {
    var s := x + rest;
    if |x| >= 4 {
      assert s[..3] == x[..3];
      var y := x[3..];
      assert y[|y| - 1] == '>';
      LeadingSpacesRun(Js, y);
      LeadingSpacesAppend(y, rest);
      assert s[3..] == y + rest;
      var k := 3 + LeadingSpaces(Js, y);
      BrCloseAppend(x, rest, k);
    } else if |x| == 3 {
      assert s[2] == '>' && LowerAscii('>') == '>';
    } else if |x| == 2 {
      assert s[1] == '>' && LowerAscii('>') == '>';
    }
  }

  lemma TagClosedAtEnd(b: string)
    requires WellFormed(Tag(b))
    ensures ClosedAtEnd(Spell(Tag(b)))
  {
    var x := Spell(Tag(b));
    forall i | 0 <= i < |x| - 1 ensures x[i] != '>' {
      if i > 0 { assert x[i] == b[i - 1]; assert b[i - 1] in b; }
    }
  }

  /** A `<br>` at the front is removed. */
  lemma StripBrSkips(x: string, rest: string)
    requires BrMatch(x + rest) == Some(|x|)
    ensures StripBr(x + rest) == StripBr(rest)
  {
    assert (x + rest)[|x|..] == rest;
  }

  /** After its first character, a string with no other `<` is kept. */
  lemma StripBrTail(x: string, rest: string)
    requires x != [] && forall j :: 1 <= j < |x| ==> x[j] != '<'
    ensures [x[0]] + StripBr(x[1..] + rest) == x + StripBr(rest)
  {
    StripBrFrom(x, rest, 1);
    ConsTail(x, StripBr(rest));
  }

  lemma ConsTail(x: string, z: string)
    requires x != []
    ensures [x[0]] + (x[1..] + z) == x + z
  {
    assert [x[0]] + x[1..] == x;
  }

  lemma StripBrNoMatch(s: string)
    requires s != [] && BrMatch(s).None?
    ensures StripBr(s) == [s[0]] + StripBr(s[1..])
  {
  }

  /** `StripBr` over a tag-shaped string: removed whole if it is a `<br>`,
      kept whole otherwise. */
  lemma StripBrClosed(x: string, rest: string)
    requires ClosedAtEnd(x) && x[0] == '<'
    requires forall j :: 1 <= j < |x| ==> x[j] != '<'
    ensures StripBr(x + rest) == (if BrMatch(x).Some? then [] else x) + StripBr(rest)
  {
    BrMatchAppend(x, rest);
    if BrMatch(x).Some? {
      StripBrSkips(x, rest);
      assert [] + StripBr(rest) == StripBr(rest);
    } else {
      var s := x + rest;
      StripBrNoMatch(s);
      assert s[0] == x[0] && s[1..] == x[1..] + rest;
      StripBrTail(x, rest);
    }
  }

  lemma StripBrTag(b: string, rest: string)
    requires WellFormed(Tag(b))
    ensures StripBr(Spell(Tag(b)) + rest)
      == (if IsBrTag(Tag(b)) then [] else Spell(Tag(b))) + StripBr(rest)
  {
    var x := Spell(Tag(b));
    TagClosedAtEnd(b);
    forall j | 1 <= j < |x| ensures x[j] != '<' {
      if j <= |b| { assert x[j] == b[j - 1]; assert b[j - 1] in b; }
    }
    StripBrClosed(x, rest);
  }

  /** `StripBr` works piece by piece over such markup. */
  lemma StripBrCons(p: Piece, rest: string)
    requires WellFormed(p)
    ensures StripBr(Spell(p) + rest) == (if IsBrTag(p) then [] else Spell(p)) + StripBr(rest)
  {
    if p.Tag? {
      StripBrTag(p.body, rest);
    } else {
      assert !IsBrTag(p);
      StripBrPlain(Spell(p), rest);
    }
  }

  lemma {:induction false} StripBrJoin(ps: seq<Piece>)
    requires AllWellFormed(ps)
    ensures StripBr(Join(ps)) == Join(DropBr(ps))
  {
    if ps != [] {
      assert AllWellFormed(ps[1..]) by { assert forall q :: q in ps[1..] ==> q in ps; }
      StripBrJoin(ps[1..]);
      assert WellFormed(ps[0]) by { assert ps[0] in ps; }
      StripBrCons(ps[0], Join(ps[1..]));
    }
  }

  /** The first character of a piece that is not whitespace is not blank. */
  lemma NonSpaceEnds(p: Piece)
    requires WellFormed(p) && !p.Space?
    ensures var s := Spell(p); !IsSpace(Js, s[0]) && !IsSpace(Js, s[|s| - 1])
  {
  }

  lemma TrimStartCons(p: Piece, rest: string)
    requires WellFormed(p)
    ensures TrimStart(Js, Spell(p) + rest)
      == if p.Space? then TrimStart(Js, rest) else Spell(p) + rest
  {
    var s := Spell(p) + rest;
    if p.Space? {
      assert s[1..] == rest;
      assert LeadingSpaces(Js, s) == 1 + LeadingSpaces(Js, rest);
      assert s[1 + LeadingSpaces(Js, rest)..] == rest[LeadingSpaces(Js, rest)..];
    } else {
      NonSpaceEnds(p);
      assert s[0] == Spell(p)[0];
      assert LeadingSpaces(Js, s) == 0;
    }
  }

  lemma {:induction false} TrimStartJoin(ps: seq<Piece>)
    requires AllWellFormed(ps)
    ensures TrimStart(Js, Join(ps)) == Join(DropLeadingSpaces(ps))
  {
    if ps != [] {
      assert WellFormed(ps[0]) by { assert ps[0] in ps; }
      TrimStartCons(ps[0], Join(ps[1..]));
      if ps[0].Space? {
        assert AllWellFormed(ps[1..]) by { assert forall q :: q in ps[1..] ==> q in ps; }
        TrimStartJoin(ps[1..]);
      }
    }
  }

  lemma TrimEndSnoc(init: string, p: Piece)
    requires WellFormed(p)
    ensures TrimEnd(Js, init + Spell(p))
      == if p.Space? then TrimEnd(Js, init) else init + Spell(p)
  {
    var s := init + Spell(p);
    if p.Space? {
      assert s[..|s| - 1] == init;
    } else {
      NonSpaceEnds(p);
      assert s[|s| - 1] == Spell(p)[|Spell(p)| - 1];
    }
  }

  lemma {:induction false} TrimEndJoin(ps: seq<Piece>)
    requires AllWellFormed(ps)
    ensures TrimEnd(Js, Join(ps)) == Join(DropTrailingSpaces(ps))
    decreases |ps|
  {
    if ps != [] {
      var init, last := ps[..|ps| - 1], ps[|ps| - 1];
      assert ps == init + [last];
      JoinAppend(init, [last]);
      assert Join([last]) == Spell(last);
      assert WellFormed(last) by { assert last in ps; }
      TrimEndSnoc(Join(init), last);
      if last.Space? {
        assert AllWellFormed(init) by { assert forall q :: q in init ==> q in ps; }
        TrimEndJoin(init);
      }
    }
  }

  lemma TrimJoin(ps: seq<Piece>)
    requires AllWellFormed(ps)
    ensures Trim(Js, Join(ps)) == Join(DropTrailingSpaces(DropLeadingSpaces(ps)))
  {
    TrimStartJoin(ps);
    TrimEndJoin(DropLeadingSpaces(ps));
  }

  lemma {:induction false} IndexOfAfter(b: string, rest: string)
    requires '>' !in b
    ensures IndexOf(b + ">" + rest, '>') == Some(|b|)
  {
    if b != [] {
      assert b[0] in b;
      assert (b + ">" + rest)[1..] == b[1..] + ">" + rest;
      assert forall c :: c in b[1..] ==> c in b;
      IndexOfAfter(b[1..], rest);
    }
  }

  /** A character that starts no entity and no tag is kept as it is. */
  lemma StripMarkupKeeps(s: string)
    requires s != [] && s[0] != '<' && s[0] != '&'
    ensures StripMarkup(s) == [s[0]] + StripMarkup(s[1..])
  {
    assert !StartsWith(s, "&nbsp;") by { assert s[0] != "&nbsp;"[0]; }
  }

  lemma StripMarkupNbsp(rest: string)
    ensures StripMarkup("&nbsp;" + rest) == StripMarkup(rest)
  {
    var s := "&nbsp;" + rest;
    assert s[..6] == "&nbsp;";
    assert s[6..] == rest;
  }

  lemma StripMarkupTag(b: string, rest: string)
    requires '<' !in b && '>' !in b
    ensures StripMarkup("<" + b + ">" + rest) == StripMarkup(rest)
  {
    var s := "<" + b + ">" + rest;
    assert s[1..] == b + ">" + rest;
    IndexOfAfter(b, rest);
    assert !StartsWith(s, "&nbsp;") by { assert s[0] == '<'; }
    assert MarkupMatch(s) == Some(|b| + 2);
    assert s[|b| + 2..] == rest;
  }

  /** Removing entities and tags from such markup leaves whitespace only. */
  lemma {:induction false} StripMarkupJoin(ps: seq<Piece>)
    requires AllWellFormed(ps)
    ensures AllSpace(Js, StripMarkup(Join(ps)))
  {
    if ps != [] {
      var p, rest := ps[0], Join(ps[1..]);
      assert Join(ps) == Spell(p) + rest;
      assert AllWellFormed(ps[1..]) by { assert forall q :: q in ps[1..] ==> q in ps; }
      StripMarkupJoin(ps[1..]);
      assert WellFormed(p) by { assert p in ps; }
      match p
      case Space(c) =>
        assert ([c] + rest)[1..] == rest;
        StripMarkupKeeps([c] + rest);
      case Nbsp => StripMarkupNbsp(rest);
      case Tag(b) => StripMarkupTag(b, rest);
    }
  }

  /** An input made only of whitespace, `&nbsp;` entities and tags (with any
      number of `<br>` among them) is refused. */
  lemma MarkupOnlyIsBlank(ps: seq<Piece>)
    requires AllWellFormed(ps)
    ensures IsBlankInput(Join(ps))
  {
    StripBrJoin(ps);
    var kept := DropBr(ps);
    TrimJoin(kept);
    var trimmed := DropTrailingSpaces(DropLeadingSpaces(kept));
    assert MessageOf(Join(ps)) == Join(trimmed);
    StripMarkupJoin(trimmed);
    TrimEmptyIff(Js, StripMarkup(Join(trimmed)));
  }

  /** Text without `<` and `&` passes through `StripMarkup` unchanged. */
  lemma {:induction false} StripMarkupPlain(x: string)
    requires '<' !in x && '&' !in x
    ensures StripMarkup(x) == x
  {
    if x != [] {
      assert x[0] in x;
      assert forall c :: c in x[1..] ==> c in x;
      StripMarkupKeeps(x);
      StripMarkupPlain(x[1..]);
      assert [x[0]] + x[1..] == x;
    }
  }

  /** Plain text with a visible character is sent, trimmed. */
  lemma PlainTextIsSent(s: string)
    requires '<' !in s && '&' !in s && !AllSpace(Js, s)
    ensures !IsBlankInput(s) && MessageOf(s) == Trim(Js, s)
  {
    StripBrPlain(s, []);
    assert s + [] == s;
    assert MessageOf(s) == Trim(Js, s);
    var m := Trim(Js, s);
    TrimEmptyIff(Js, s);
    TrimKeepsChars(Js, s);
    StripMarkupPlain(m);
    TrimIdempotent(Js, s);
  }
}
