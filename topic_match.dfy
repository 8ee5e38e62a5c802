/**
  Wildcard matching of topics against subscription patterns.

  The bus turns a pattern into a regular expression: it quotes every regular
  expression metacharacter, anchors the result at both ends, rewrites each
  quoted `*` into `[^/]+` and each quoted `#` into `.*`, and matches the topic
  against that expression. The quoting function leaves `#` alone, so the second
  rewrite only finds a backslash followed by `#`: that happens exactly where the
  pattern itself holds a backslash followed by `#`, and the pair then becomes
  `\.*` (zero or more dots). A lone `#` stays a literal character.

  The model writes out the three string rewrites, a reader for the fragment of
  regular expression syntax they produce, and a matcher for that fragment; it
  then proves that the expression always reads as `Compile(pattern)`.
*/
module TopicMatch {
  import opened Wrappers

  // ---------------------------------------------------------------------------
  // Regular expressions of the fragment the bus produces
  // ---------------------------------------------------------------------------

  /** A single-character class: one given character, or any character but '/'. */
  datatype Atom = Char(c: char) | NotSlash

  /** How many repetitions of the atom: exactly one, one or more, zero or more. */
  datatype Quant = One | Plus | Star

  datatype Piece = Piece(atom: Atom, quant: Quant)

  /** `c`: the character itself. */
  function Lit(c: char): Piece { Piece(Char(c), One) }

  /** `[^/]+`: what a `*` of the pattern becomes. */
  const Segment: Piece := Piece(NotSlash, Plus)

  /** `\.*`: what a backslash followed by `#` in the pattern becomes. */
  const Dots: Piece := Piece(Char('.'), Star)

  predicate AtomMatches(a: Atom, x: char)
  {
    match a
    case Char(c) => x == c
    case NotSlash => x != '/'
  }

  predicate AllMatch(a: Atom, s: string)
  {
    forall i :: 0 <= i < |s| ==> AtomMatches(a, s[i])
  }

  predicate QuantAllows(q: Quant, k: nat)
  {
    match q
    case One => k == 1
    case Plus => k >= 1
    case Star => true
  }

  /**
    Reference meaning of an anchored piece sequence: the topic splits into a run
    of characters for the first piece (as many as its quantifier allows, each
    matching its atom) followed by a topic for the remaining pieces.
  */
  ghost predicate Lang(ps: seq<Piece>, t: string)
    decreases |ps|
  {
    if ps == [] then t == []
    else exists k :: 0 <= k <= |t| && QuantAllows(ps[0].quant, k) && AllMatch(ps[0].atom, t[..k]) && Lang(ps[1..], t[k..])
  }

  /** The backtracking matcher: decides whether the whole topic matches the pieces. */
  function MatchPieces(ps: seq<Piece>, t: string): bool
    decreases |ps|, |t|, 1
  {
    if ps == [] then t == []
    else
      var a := ps[0].atom;
      match ps[0].quant
      case One => t != [] && AtomMatches(a, t[0]) && MatchPieces(ps[1..], t[1..])
      case Plus => t != [] && AtomMatches(a, t[0]) && MatchRepeat(a, ps[1..], t[1..])
      case Star => MatchRepeat(a, ps[1..], t)
  }

  /** Zero or more further characters matching `a`, then `rest` up to the end. */
  function MatchRepeat(a: Atom, rest: seq<Piece>, t: string): bool
    decreases |rest| + 1, |t|, 0
  {
    MatchPieces(rest, t) || (t != [] && AtomMatches(a, t[0]) && MatchRepeat(a, rest, t[1..]))
  }

  // ---------------------------------------------------------------------------
  // The translation of a pattern into a regular expression
  // ---------------------------------------------------------------------------

  /** The characters that the quoting function escapes with a backslash. */
  predicate IsSpecial(c: char)
  {
    || c == '\\' || c == '.' || c == '+' || c == '*' || c == '?' || c == '(' || c == ')'
    || c == '|' || c == '[' || c == ']' || c == '{' || c == '}' || c == '^' || c == '$'
  }

  /** The quoted form of one character. */
  function Quote1(c: char): string
  {
    if IsSpecial(c) then ['\\', c] else [c]
  }

  function QuoteMeta(s: string): string
    decreases |s|
  {
    if s == [] then [] else Quote1(s[0]) + QuoteMeta(s[1..])
  }

  /** Leftmost, non-overlapping replacement of the two-character text `n0 n1` by `r`. */
  function ReplaceAll(s: string, n0: char, n1: char, r: string): string
    decreases |s|
  {
    if |s| < 2 then s
    else if s[0] == n0 && s[1] == n1 then r + ReplaceAll(s[2..], n0, n1, r)
    else [s[0]] + ReplaceAll(s[1..], n0, n1, r)
  }

  /** The expression text the bus matches a topic against. */
  function RegexSource(pattern: string): string
  {
    var quoted := "^" + QuoteMeta(pattern) + "$";
    var stars := ReplaceAll(quoted, '\\', '*', "[^/]+");
    ReplaceAll(stars, '\\', '#', ".*")
  }

  function Prepend(x: Piece, r: Option<seq<Piece>>): Option<seq<Piece>>
  {
    match r
    case None => None
    case Some(ps) => Some([x] + ps)
  }

  /**
    Reads an anchored expression of the fragment: `^`, then atoms (an escaped
    metacharacter, `[^/]` or a plain character) each with an optional `*` or
    `+`, then `$`. Anything else is outside the fragment and gives None.
  */
  function ParseRegex(re: string): Option<seq<Piece>>
  {
    if re != [] && re[0] == '^' then ParseBody(re[1..]) else None
  }

  function ParseBody(s: string): Option<seq<Piece>>
    decreases |s|, 0
  {
    if s == "$" then Some([])
    else if |s| >= 2 && s[0] == '\\' && IsSpecial(s[1]) then ParseQuantified(Char(s[1]), s[2..])
    else if |s| >= 4 && s[..4] == "[^/]" then ParseQuantified(NotSlash, s[4..])
    else if s != [] && !IsSpecial(s[0]) then ParseQuantified(Char(s[0]), s[1..])
    else None
  }

  function ParseQuantified(a: Atom, s: string): Option<seq<Piece>>
    decreases |s|, 1
  {
    if s != [] && s[0] == '*' then Prepend(Piece(a, Star), ParseBody(s[1..]))
    else if s != [] && s[0] == '+' then Prepend(Piece(a, Plus), ParseBody(s[1..]))
    else Prepend(Piece(a, One), ParseBody(s))
  }

  /** MatchTopic: an expression that cannot be read matches nothing. */
  function MatchTopic(pattern: string, topic: string): bool
  {
    match ParseRegex(RegexSource(pattern))
    case None => false
    case Some(ps) => MatchPieces(ps, topic)
  }

  /** The number of pattern characters the next piece stands for: two for a backslash before `#`. */
  function HeadLength(p: string): nat
    requires p != []
  {
    if |p| >= 2 && p[0] == '\\' && p[1] == '#' then 2 else 1
  }

  /** The piece the first `HeadLength(p)` characters stand for. */
  function HeadPiece(p: string): Piece
    requires p != []
  {
    if |p| >= 2 && p[0] == '\\' && p[1] == '#' then Dots
    else if p[0] == '*' then Segment
    else Lit(p[0])
  }

  /** What the translation amounts to, read directly off the pattern. */
  function Compile(p: string): (ps: seq<Piece>)
    decreases |p|
  {
    if p == [] then [] else [HeadPiece(p)] + Compile(p[HeadLength(p)..])
  }

  /** A pattern with neither `*` nor a backslash followed by `#`. */
  predicate NoWildcards(p: string)
  {
    && (forall i :: 0 <= i < |p| ==> p[i] != '*')
    && (forall i :: 0 <= i < |p| - 1 ==> !(p[i] == '\\' && p[i + 1] == '#'))
  }

  predicate NoSlash(s: string)
  {
    forall i :: 0 <= i < |s| ==> s[i] != '/'
  }

  // ---------------------------------------------------------------------------
  // The expression text reads as Compile(pattern)
  // ---------------------------------------------------------------------------

  /** What the first rewrite turns the quoted form of one pattern character into. */
  ghost function StarChunk(c: char): string
  {
    if c == '*' then "[^/]+" else Quote1(c)
  }

  /** The text after the first rewrite, without the anchors. */
  ghost function StarsRewritten(p: string): string
    decreases |p|
  {
    if p == [] then [] else StarChunk(p[0]) + StarsRewritten(p[1..])
  }

  /** The text after both rewrites, without the anchors. */
  ghost function BothRewritten(p: string): string
    decreases |p|
  {
    if p == [] then []
    else if |p| >= 2 && p[0] == '\\' && p[1] == '#' then "\\.*" + BothRewritten(p[2..])
    else StarChunk(p[0]) + BothRewritten(p[1..])
  }

  lemma {:induction false} ReplaceCons(c: char, x: string, n0: char, n1: char, r: string)
    requires |x| >= 1 && !(c == n0 && x[0] == n1)
    ensures ReplaceAll([c] + x, n0, n1, r) == [c] + ReplaceAll(x, n0, n1, r)
  {
    assert ([c] + x)[1..] == x;
  }

  lemma {:induction false} ReplaceHit(x: string, n0: char, n1: char, r: string)
    ensures ReplaceAll([n0, n1] + x, n0, n1, r) == r + ReplaceAll(x, n0, n1, r)
  {
    assert ([n0, n1] + x)[2..] == x;
  }

  /** Replacement passes over text that does not contain the needle's first character. */
  lemma {:induction false} ReplaceSkips(w: string, y: string, n0: char, n1: char, r: string)
    requires forall i :: 0 <= i < |w| ==> w[i] != n0
    requires |y| >= 1
    ensures ReplaceAll(w + y, n0, n1, r) == w + ReplaceAll(y, n0, n1, r)
    decreases |w|
  {
    if w != [] {
      var w' := w[1..];
      assert forall i :: 0 <= i < |w'| ==> w'[i] == w[i + 1];
      ReplaceSkips(w', y, n0, n1, r);
      ReplaceSkipsStep(w, y, n0, n1, r);
    } else {
      assert w + y == y;
    }
  }

  /** The inductive step of ReplaceSkips: one more character in front. */
  lemma {:induction false} ReplaceSkipsStep(w: string, y: string, n0: char, n1: char, r: string)
    requires w != [] && w[0] != n0 && |y| >= 1
    requires ReplaceAll(w[1..] + y, n0, n1, r) == w[1..] + ReplaceAll(y, n0, n1, r)
    ensures ReplaceAll(w + y, n0, n1, r) == w + ReplaceAll(y, n0, n1, r)
  {
    var w' := w[1..];
    ReplaceCons(w[0], w' + y, n0, n1, r);
    assert w + y == [w[0]] + (w' + y);
    calc {
      ReplaceAll(w + y, n0, n1, r);
      [w[0]] + ReplaceAll(w' + y, n0, n1, r);
      [w[0]] + (w' + ReplaceAll(y, n0, n1, r));
      { assert w == [w[0]] + w'; }
      w + ReplaceAll(y, n0, n1, r);
    }
  }

  /** A backslash pair `n0 c` that is not the needle passes through unchanged. */
  lemma {:induction false} ReplaceEscaped(c: char, x: string, n0: char, n1: char, r: string)
    requires |x| >= 1 && c != n0 && c != n1
    ensures ReplaceAll([n0, c] + x, n0, n1, r) == [n0, c] + ReplaceAll(x, n0, n1, r)
  {
    var x1 := [c] + x;
    assert x1[0] == c;
    ReplaceCons(n0, x1, n0, n1, r);
    ReplaceCons(c, x, n0, n1, r);
    assert [n0, c] + x == [n0] + x1;
    calc {
      ReplaceAll([n0, c] + x, n0, n1, r);
      [n0] + ReplaceAll(x1, n0, n1, r);
      [n0] + ([c] + ReplaceAll(x, n0, n1, r));
      [n0, c] + ReplaceAll(x, n0, n1, r);
    }
  }

  /** A doubled backslash passes through unchanged when what follows does not complete the needle. */
  lemma {:induction false} ReplaceDoubled(x: string, n1: char, r: string)
    requires |x| >= 1 && x[0] != n1 && n1 != '\\'
    ensures ReplaceAll(['\\', '\\'] + x, '\\', n1, r) == ['\\', '\\'] + ReplaceAll(x, '\\', n1, r)
  {
    var x1 := ['\\'] + x;
    assert x1[0] == '\\' && x1[1] == x[0];
    ReplaceCons('\\', x1, '\\', n1, r);
    ReplaceCons('\\', x, '\\', n1, r);
    assert ['\\', '\\'] + x == ['\\'] + x1;
    calc {
      ReplaceAll(['\\', '\\'] + x, '\\', n1, r);
      ['\\'] + ReplaceAll(x1, '\\', n1, r);
      ['\\'] + (['\\'] + ReplaceAll(x, '\\', n1, r));
      ['\\', '\\'] + ReplaceAll(x, '\\', n1, r);
    }
  }

  /** One quoted character through the first rewrite. */
  lemma {:induction false} FirstRewriteStep(c: char, x: string)
    requires |x| >= 1 && x[0] != '*'
    ensures ReplaceAll(Quote1(c) + x, '\\', '*', "[^/]+") == StarChunk(c) + ReplaceAll(x, '\\', '*', "[^/]+")
  {
    if c == '*' {
      assert Quote1(c) == ['\\', '*'];
      ReplaceHit(x, '\\', '*', "[^/]+");
    } else if c == '\\' {
      assert Quote1(c) == ['\\', '\\'] == StarChunk(c);
      ReplaceDoubled(x, '*', "[^/]+");
    } else if IsSpecial(c) {
      assert Quote1(c) == ['\\', c] == StarChunk(c);
      ReplaceEscaped(c, x, '\\', '*', "[^/]+");
    } else {
      assert Quote1(c) == [c] == StarChunk(c);
      ReplaceCons(c, x, '\\', '*', "[^/]+");
    }
  }

  lemma {:induction false} FirstRewrite(p: string)
    ensures ReplaceAll(QuoteMeta(p) + "$", '\\', '*', "[^/]+") == StarsRewritten(p) + "$"
    decreases |p|
  {
    if p != [] {
      var x := QuoteMeta(p[1..]) + "$";
      assert QuoteMeta(p) + "$" == Quote1(p[0]) + x;
      assert x[0] != '*';
      FirstRewriteStep(p[0], x);
      FirstRewrite(p[1..]);
    }
  }

  lemma {:induction false} SegmentPassesSecond(y: string)
    requires |y| >= 1
    ensures ReplaceAll("[^/]+" + y, '\\', '#', ".*") == "[^/]+" + ReplaceAll(y, '\\', '#', ".*")
  {
    SegmentTextSkipped("[^/]+", y, '#', ".*");
  }

  lemma {:induction false} SegmentTextSkipped(w: string, y: string, n1: char, r: string)
    requires w == "[^/]+" && |y| >= 1
    ensures ReplaceAll(w + y, '\\', n1, r) == w + ReplaceAll(y, '\\', n1, r)
  {
    assert forall i :: 0 <= i < |w| ==> w[i] != '\\';
    ReplaceSkips(w, y, '\\', n1, r);
  }

  /** One chunk through the second rewrite: it only fires on a backslash before '#'. */
  lemma {:induction false} SecondRewriteStep(c: char, y: string)
    requires |y| >= 1 && (c == '\\' ==> y[0] != '#')
    ensures ReplaceAll(StarChunk(c) + y, '\\', '#', ".*") == StarChunk(c) + ReplaceAll(y, '\\', '#', ".*")
  {
    if c == '*' {
      assert StarChunk(c) == "[^/]+";
      SegmentPassesSecond(y);
    } else if c == '\\' {
      assert StarChunk(c) == ['\\', '\\'];
      ReplaceDoubled(y, '#', ".*");
    } else if IsSpecial(c) {
      assert StarChunk(c) == ['\\', c];
      ReplaceEscaped(c, y, '\\', '#', ".*");
    } else {
      assert StarChunk(c) == [c];
      ReplaceCons(c, y, '\\', '#', ".*");
    }
  }

  lemma {:induction false} SecondRewrite(p: string)
    ensures ReplaceAll(StarsRewritten(p) + "$", '\\', '#', ".*") == BothRewritten(p) + "$"
    decreases |p|
  {
    if p != [] {
      if |p| >= 2 && p[0] == '\\' && p[1] == '#' {
        SecondRewriteHash(p);
        SecondRewrite(p[2..]);
      } else {
        SecondRewriteChunk(p);
        SecondRewrite(p[1..]);
      }
    }
  }

  /** The second rewrite on a pattern that starts with a backslash before '#'. */
  lemma {:induction false} SecondRewriteHash(p: string)
    requires |p| >= 2 && p[0] == '\\' && p[1] == '#'
    ensures ReplaceAll(StarsRewritten(p) + "$", '\\', '#', ".*")
         == "\\.*" + ReplaceAll(StarsRewritten(p[2..]) + "$", '\\', '#', ".*")
  {
    var y := StarsRewritten(p[2..]) + "$";
    assert StarsRewritten(p[1..]) == "#" + StarsRewritten(p[2..]);
    assert StarsRewritten(p) + "$" == ['\\'] + (['\\', '#'] + y);
    ReplaceCons('\\', ['\\', '#'] + y, '\\', '#', ".*");
    ReplaceHit(y, '\\', '#', ".*");
  }

  /** The second rewrite on a pattern whose first character is its own chunk. */
  lemma {:induction false} SecondRewriteChunk(p: string)
    requires p != [] && !(|p| >= 2 && p[0] == '\\' && p[1] == '#')
    ensures ReplaceAll(StarsRewritten(p) + "$", '\\', '#', ".*")
         == StarChunk(p[0]) + ReplaceAll(StarsRewritten(p[1..]) + "$", '\\', '#', ".*")
  {
    var y := StarsRewritten(p[1..]) + "$";
    assert StarsRewritten(p) + "$" == StarChunk(p[0]) + y;
    RewrittenStart(p[1..]);
    SecondRewriteStep(p[0], y);
  }

  /** The rewritten text of `q` starts with a '#' only when `q` itself does. */
  lemma {:induction false} RewrittenStart(q: string)
    ensures |StarsRewritten(q) + "$"| >= 1
    ensures q == [] || q[0] != '#' ==> (StarsRewritten(q) + "$")[0] != '#'
  {
    if q != [] {
      var c := q[0];
      assert StarsRewritten(q) + "$" == StarChunk(c) + (StarsRewritten(q[1..]) + "$");
      assert c != '#' ==> StarChunk(c)[0] != '#';
    }
  }

  /** The piece a chunk of the rewritten text reads as. */
  ghost function ChunkPiece(c: char): Piece
  {
    if c == '*' then Segment else Lit(c)
  }

  lemma {:induction false} ReadChunk(c: char, z: string)
    requires |z| >= 1 && z[0] != '*' && z[0] != '+'
    ensures ParseBody(StarChunk(c) + z) == Prepend(ChunkPiece(c), ParseBody(z))
  {
    if c == '*' {
      assert ("[^/]+" + z)[..4] == "[^/]";
      assert ("[^/]+" + z)[4..] == "+" + z;
      assert ("+" + z)[1..] == z;
    } else if IsSpecial(c) {
      assert (['\\', c] + z)[2..] == z;
    } else {
      assert ([c] + z)[1..] == z;
    }
  }

  lemma {:induction false} ReadDots(z: string)
    ensures ParseBody("\\.*" + z) == Prepend(Dots, ParseBody(z))
  {
    assert ("\\.*" + z)[2..] == "*" + z;
    assert ("*" + z)[1..] == z;
  }

  lemma {:induction false} ReadBack(p: string)
    ensures ParseBody(BothRewritten(p) + "$") == Some(Compile(p))
    decreases |p|
  {
    if p != [] {
      if |p| >= 2 && p[0] == '\\' && p[1] == '#' {
        var z := BothRewritten(p[2..]) + "$";
        assert BothRewritten(p) + "$" == "\\.*" + z;
        ReadDots(z);
        ReadBack(p[2..]);
      } else {
        var z := BothRewritten(p[1..]) + "$";
        assert BothRewritten(p) + "$" == StarChunk(p[0]) + z;
        assert z[0] != '*' && z[0] != '+';
        ReadChunk(p[0], z);
        ReadBack(p[1..]);
      }
    }
  }

  /** The expression built from any pattern is readable and means Compile(pattern). */
  lemma {:induction false} RegexIsCompile(p: string)
    ensures ParseRegex(RegexSource(p)) == Some(Compile(p))
  {
    var x := QuoteMeta(p) + "$";
    assert "^" + QuoteMeta(p) + "$" == ['^'] + x;
    ReplaceCons('^', x, '\\', '*', "[^/]+");
    FirstRewrite(p);
    var y := StarsRewritten(p) + "$";
    ReplaceCons('^', y, '\\', '#', ".*");
    SecondRewrite(p);
    assert RegexSource(p) == ['^'] + (BothRewritten(p) + "$");
    ReadBack(p);
  }

  lemma {:induction false} MatchTopicIsCompiled(p: string, t: string)
    ensures MatchTopic(p, t) == MatchPieces(Compile(p), t)
  {
    RegexIsCompile(p);
  }

  // ---------------------------------------------------------------------------
  // The matcher decides the reference meaning
  // ---------------------------------------------------------------------------

  /** Reference meaning of `MatchRepeat`: a run of `a` characters, then `rest`. */
  ghost predicate RepeatLang(a: Atom, rest: seq<Piece>, t: string)
  {
    exists k :: 0 <= k <= |t| && AllMatch(a, t[..k]) && Lang(rest, t[k..])
  }

  lemma {:induction false} RepeatSound(a: Atom, rest: seq<Piece>, t: string)
    requires MatchRepeat(a, rest, t)
    ensures RepeatLang(a, rest, t)
    decreases |rest| + 1, |t|, 0
  {
    if MatchPieces(rest, t) {
      MatchIff(rest, t);
      assert t[..0] == [] && t[0..] == t;
    } else {
      RepeatSound(a, rest, t[1..]);
      var k :| 0 <= k <= |t[1..]| && AllMatch(a, t[1..][..k]) && Lang(rest, t[1..][k..]);
      RunStepsBack(a, t, k);
    }
  }

  lemma {:induction false} RepeatComplete(a: Atom, rest: seq<Piece>, t: string, k: nat)
    requires k <= |t| && AllMatch(a, t[..k]) && Lang(rest, t[k..])
    ensures MatchRepeat(a, rest, t)
    decreases |rest| + 1, |t|, 0
  {
    if k == 0 {
      assert t[0..] == t;
      MatchIff(rest, t);
    } else {
      RunStepsForward(a, t, k);
      RepeatComplete(a, rest, t[1..], k - 1);
    }
  }

  lemma {:induction false} MatchIff(ps: seq<Piece>, t: string)
    ensures MatchPieces(ps, t) <==> Lang(ps, t)
    decreases |ps|, |t|, 2
  {
    if ps != [] {
      match ps[0].quant
      case One => MatchIffOne(ps, t);
      case Plus => MatchIffPlus(ps, t);
      case Star => MatchIffStar(ps, t);
    }
  }

  lemma {:induction false} MatchIffOne(ps: seq<Piece>, t: string)
    requires ps != [] && ps[0].quant == One
    ensures MatchPieces(ps, t) <==> Lang(ps, t)
    decreases |ps|, |t|, 1
  {
    var a, rest := ps[0].atom, ps[1..];
    if t != [] {
      MatchIff(rest, t[1..]);
      assert t[..1] == [t[0]];
    }
    if Lang(ps, t) {
      var k :| 0 <= k <= |t| && QuantAllows(One, k) && AllMatch(a, t[..k]) && Lang(rest, t[k..]);
      assert t[..k][0] == t[0];
    }
  }

  lemma {:induction false} MatchIffPlus(ps: seq<Piece>, t: string)
    requires ps != [] && ps[0].quant == Plus
    ensures MatchPieces(ps, t) <==> Lang(ps, t)
    decreases |ps|, |t|, 1
  {
    if MatchPieces(ps, t) {
      PlusSound(ps, t);
    }
    if Lang(ps, t) {
      PlusComplete(ps, t);
    }
  }

  lemma {:induction false} PlusSound(ps: seq<Piece>, t: string)
    requires ps != [] && ps[0].quant == Plus && MatchPieces(ps, t)
    ensures Lang(ps, t)
    decreases |ps|, |t|, 0
  {
    var a, rest := ps[0].atom, ps[1..];
    assert t != [] && AtomMatches(a, t[0]) && MatchRepeat(a, rest, t[1..]);
    RepeatSound(a, rest, t[1..]);
    var k :| 0 <= k <= |t[1..]| && AllMatch(a, t[1..][..k]) && Lang(rest, t[1..][k..]);
    RunStepsBack(a, t, k);
    assert QuantAllows(Plus, k + 1) && Lang(rest, t[k + 1..]);
  }

  lemma {:induction false} PlusComplete(ps: seq<Piece>, t: string)
    requires ps != [] && ps[0].quant == Plus && Lang(ps, t)
    ensures MatchPieces(ps, t)
    decreases |ps|, |t|, 0
  {
    var a, rest := ps[0].atom, ps[1..];
    var k :| 0 <= k <= |t| && QuantAllows(Plus, k) && AllMatch(a, t[..k]) && Lang(rest, t[k..]);
    RunStepsForward(a, t, k);
    RepeatComplete(a, rest, t[1..], k - 1);
  }

  lemma {:induction false} MatchIffStar(ps: seq<Piece>, t: string)
    requires ps != [] && ps[0].quant == Star
    ensures MatchPieces(ps, t) <==> Lang(ps, t)
    decreases |ps|, |t|, 1
  {
    var a, rest := ps[0].atom, ps[1..];
    if MatchPieces(ps, t) {
      RepeatSound(a, rest, t);
    }
    if Lang(ps, t) {
      var k :| 0 <= k <= |t| && QuantAllows(Star, k) && AllMatch(a, t[..k]) && Lang(rest, t[k..]);
      RepeatComplete(a, rest, t, k);
    }
  }

  /** A run of `k` characters after a matching first one is a run of `k + 1`. */
  lemma {:induction false} RunStepsBack(a: Atom, t: string, k: nat)
    requires t != [] && AtomMatches(a, t[0]) && k <= |t[1..]| && AllMatch(a, t[1..][..k])
    ensures AllMatch(a, t[..k + 1]) && t[k + 1..] == t[1..][k..]
  {
    assert t[..k + 1] == [t[0]] + t[1..][..k];
  }

  /** A non-empty run starts with a matching character and continues with a run one shorter. */
  lemma {:induction false} RunStepsForward(a: Atom, t: string, k: nat)
    requires 1 <= k <= |t| && AllMatch(a, t[..k])
    ensures t != [] && AtomMatches(a, t[0]) && AllMatch(a, t[1..][..k - 1]) && t[1..][k - 1..] == t[k..]
  {
    assert AtomMatches(a, t[..k][0]);
    assert t[1..][..k - 1] == t[1..k];
  }

  // ---------------------------------------------------------------------------
  // Properties of MatchTopic
  // ---------------------------------------------------------------------------

  /** One literal piece per character. */
  function Lits(p: string): seq<Piece>
    decreases |p|
  {
    if p == [] then [] else [Lit(p[0])] + Lits(p[1..])
  }

  lemma {:induction false} NoWildcardsTail(p: string)
    requires p != [] && NoWildcards(p)
    ensures NoWildcards(p[1..])
  {
    forall i | 0 <= i < |p[1..]| - 1 ensures !(p[1..][i] == '\\' && p[1..][i + 1] == '#') {
      assert p[1..][i] == p[i + 1] && p[1..][i + 1] == p[i + 2];
    }
  }

  /** A pattern without wildcards compiles to one literal per character. */
  lemma {:induction false} CompileLiteral(p: string)
    requires NoWildcards(p)
    ensures Compile(p) == Lits(p)
    decreases |p|
  {
    if p != [] {
      assert p[0] != '*';
      assert |p| >= 2 ==> !(p[0] == '\\' && p[1] == '#');
      NoWildcardsTail(p);
      CompileLiteral(p[1..]);
    }
  }

  /** Literal pieces in front consume exactly the text they spell. */
  lemma {:induction false} LiteralsMatchExactly(p: string, rest: seq<Piece>, t: string)
    ensures MatchPieces(Lits(p) + rest, t)
        <==> |p| <= |t| && t[..|p|] == p && MatchPieces(rest, t[|p|..])
    decreases |p|
  {
    if p == [] {
      assert Lits(p) + rest == rest && t[0..] == t;
    } else {
      assert (Lits(p) + rest)[0] == Lit(p[0]);
      assert (Lits(p) + rest)[1..] == Lits(p[1..]) + rest;
      if t != [] {
        LiteralsMatchExactly(p[1..], rest, t[1..]);
        if |p| <= |t| {
          assert t[1..][..|p| - 1] == t[1..|p|] && t[1..][|p| - 1..] == t[|p|..];
          assert t[..|p|] == [t[0]] + t[1..|p|];
          assert p == [p[0]] + p[1..];
        }
      }
    }
  }

  /** Literal pieces alone match exactly the text they spell. */
  lemma {:induction false} LiteralsAlone(p: string, t: string)
    ensures MatchPieces(Lits(p), t) <==> t == p
  {
    LiteralsMatchExactly(p, [], t);
    assert Lits(p) + [] == Lits(p);
    if |p| <= |t| && t[..|p|] == p && t[|p|..] == [] {
      assert t == t[..|p|] + t[|p|..];
    }
  }

  /** Anchored at both ends: a pattern without wildcards matches only itself. */
  lemma {:induction false} ExactMatchWithoutWildcards(p: string, t: string)
    requires NoWildcards(p)
    ensures MatchTopic(p, t) <==> p == t
  {
    MatchTopicIsCompiled(p, t);
    CompileLiteral(p);
    LiteralsAlone(p, t);
  }

  /** The first piece of a concatenation is that of its first part, when no backslash-`#` pair straddles the joint. */
  lemma {:induction false} HeadOfAppend(a: string, b: string)
    requires a != [] && !(a[|a| - 1] == '\\' && b != [] && b[0] == '#')
    ensures HeadLength(a + b) == HeadLength(a) && HeadPiece(a + b) == HeadPiece(a)
  {
    assert (a + b)[0] == a[0];
    if |a| >= 2 {
      assert (a + b)[1] == a[1];
    } else if b != [] {
      assert (a + b)[1] == b[0];
    }
  }

  lemma {:induction false} DropAppend(a: string, b: string, n: nat)
    requires n <= |a|
    ensures (a + b)[n..] == a[n..] + b
    ensures a[n..] != [] ==> a[n..][|a[n..]| - 1] == a[|a| - 1]
  {
  }

  /** The unfolding step of CompileAppend, given the fact about the rest. */
  lemma {:induction false} CompileAppendStep(a: string, b: string, rest: string)
    requires a != [] && rest == a[HeadLength(a)..]
    requires HeadLength(a + b) == HeadLength(a) && HeadPiece(a + b) == HeadPiece(a)
    requires (a + b)[HeadLength(a)..] == rest + b
    requires Compile(rest + b) == Compile(rest) + Compile(b)
    ensures Compile(a + b) == Compile(a) + Compile(b)
  {
    calc {
      Compile(a + b);
      [HeadPiece(a)] + Compile(rest + b);
      [HeadPiece(a)] + (Compile(rest) + Compile(b));
      ([HeadPiece(a)] + Compile(rest)) + Compile(b);
    }
  }

  /** Compiling a concatenation, when no backslash-`#` pair straddles the joint. */
  lemma {:induction false} CompileAppend(a: string, b: string)
    requires !(a != [] && a[|a| - 1] == '\\' && b != [] && b[0] == '#')
    ensures Compile(a + b) == Compile(a) + Compile(b)
    decreases |a|
  {
    if a == [] {
      assert a + b == b;
    } else {
      var rest := a[HeadLength(a)..];
      HeadOfAppend(a, b);
      DropAppend(a, b, HeadLength(a));
      CompileAppend(rest, b);
      CompileAppendStep(a, b, rest);
    }
  }

  /** The pieces of `pre*post` when neither part has a wildcard of its own. */
  lemma {:induction false} CompileSingleStar(pre: string, post: string)
    requires NoWildcards(pre) && NoWildcards(post)
    ensures Compile(pre + "*" + post) == Lits(pre) + ([Segment] + Lits(post))
  {
    assert pre + "*" + post == pre + ("*" + post);
    assert ("*" + post)[0] == '*' && ("*" + post)[1..] == post;
    CompileAppend(pre, "*" + post);
    CompileLiteral(pre);
    CompileLiteral(post);
  }

  lemma {:induction false} LiteralsLang(post: string, v: string)
    ensures Lang(Lits(post), v) <==> v == post
  {
    MatchIff(Lits(post), v);
    LiteralsAlone(post, v);
  }

  /** `u` is a run of at least `least` characters other than '/', then exactly `post`. */
  ghost predicate RunThen(u: string, post: string, least: nat)
  {
    |post| + least <= |u| && u[|u| - |post|..] == post && NoSlash(u[..|u| - |post|])
  }

  /** Peeling the first character off the run before a suffix of length `m`. */
  lemma {:induction false} RunCons(u: string, m: nat)
    requires m < |u|
    ensures u[1..][|u| - 1 - m..] == u[|u| - m..]
    ensures NoSlash(u[..|u| - m]) <==> u[0] != '/' && NoSlash(u[1..][..|u| - 1 - m])
  {
    var n := |u| - m;
    assert u[1..][..n - 1] == u[1..n];
    assert u[..n] == [u[0]] + u[1..n];
  }

  /** A non-empty run is a first character other than '/' and a run after it. */
  lemma {:induction false} RunThenCons(u: string, post: string)
    requires u != []
    ensures RunThen(u, post, 1) <==> u[0] != '/' && RunThen(u[1..], post, 0)
    ensures |post| < |u| ==> (RunThen(u, post, 0) <==> RunThen(u, post, 1))
  {
    if |post| < |u| {
      RunCons(u, |post|);
    }
  }

  /** With no room for a run, the text must be `post` itself. */
  lemma {:induction false} RunThenExact(u: string, post: string)
    requires |u| <= |post|
    ensures RunThen(u, post, 0) <==> u == post
  {
    if |u| == |post| {
      assert u[0..] == u && u[..0] == [];
    }
  }

  /** Zero or more characters other than '/', then exactly `post`. */
  lemma {:induction false} RepeatThenLiterals(post: string, u: string)
    ensures MatchRepeat(NotSlash, Lits(post), u) <==> RunThen(u, post, 0)
    decreases |u|
  {
    LiteralsAlone(post, u);
    if u != [] {
      RepeatThenLiterals(post, u[1..]);
      RunThenCons(u, post);
    }
    if |u| <= |post| {
      RunThenExact(u, post);
    }
  }

  lemma {:induction false} SegmentFirst(ps: seq<Piece>, u: string)
    requires ps != [] && ps[0] == Segment
    ensures MatchPieces(ps, u) == (u != [] && u[0] != '/' && MatchRepeat(NotSlash, ps[1..], u[1..]))
  {
  }

  /** A `[^/]+` followed by literals: a non-empty run without '/', then exactly `post`. */
  lemma {:induction false} SegmentThenLiterals(ps: seq<Piece>, post: string, u: string)
    requires ps == [Segment] + Lits(post)
    ensures MatchPieces(ps, u) <==> RunThen(u, post, 1)
  {
    assert ps[0] == Segment && ps[1..] == Lits(post);
    SegmentFirst(ps, u);
    if u != [] {
      RepeatThenLiterals(post, u[1..]);
      RunThenCons(u, post);
    }
  }

  /**
    A pattern `pre*post` (no other wildcard) matches exactly the topics that
    start with `pre`, end with `post`, and hold a non-empty run without '/'
    in between.
  */
  lemma {:induction false} SingleStar(pre: string, post: string, t: string)
    requires NoWildcards(pre) && NoWildcards(post)
    ensures MatchTopic(pre + "*" + post, t)
        <==> |pre| + |post| < |t| && t[..|pre|] == pre && t[|t| - |post|..] == post
             && NoSlash(t[|pre|..|t| - |post|])
  {
    MatchTopicIsCompiled(pre + "*" + post, t);
    CompileSingleStar(pre, post);
    LiteralsMatchExactly(pre, [Segment] + Lits(post), t);
    if |pre| <= |t| {
      SegmentThenLiterals([Segment] + Lits(post), post, t[|pre|..]);
      RunThenAfter(t, |pre|, post);
    }
  }

  /** The run condition on the text after the first `n` characters, read on the whole text. */
  lemma {:induction false} RunThenAfter(t: string, n: nat, post: string)
    requires n <= |t|
    ensures RunThen(t[n..], post, 1) <==> n + |post| < |t| && t[|t| - |post|..] == post && NoSlash(t[n..|t| - |post|])
  {
    var u := t[n..];
    if n + |post| < |t| {
      assert u[|u| - |post|..] == t[|t| - |post|..] && u[..|u| - |post|] == t[n..|t| - |post|];
    }
  }

  /** A backslash followed by `#` matches any number of dots, and nothing else. */
  lemma {:induction false} EscapedHashMatchesDots(t: string)
    ensures MatchTopic("\\#", t) <==> forall i :: 0 <= i < |t| ==> t[i] == '.'
  {
    MatchTopicIsCompiled("\\#", t);
    assert Compile("\\#") == [Dots] by { assert "\\#"[2..] == []; }
    MatchIff([Dots], t);
    assert [Dots][1..] == [];
    if Lang([Dots], t) {
      var k :| 0 <= k <= |t| && AllMatch(Char('.'), t[..k]) && Lang([], t[k..]);
      assert t[..k] == t;
    } else {
      assert t[..|t|] == t && t[|t|..] == [];
    }
  }

  // ---------------------------------------------------------------------------
  // Instances
  // ---------------------------------------------------------------------------

  /** `*` stands for any non-empty run without a slash, so it also spans colons: "user:*" and "*" both match "user:updated". */
  lemma StarCrossesColon()
    ensures MatchTopic("user:*", "user:updated")
    ensures MatchTopic("*", "user:updated")
  {
    var t := "user:updated";
    assert "user:" + "*" == "user:*" && "" + "*" == "*";
    StarExample("user:", t);
    assert t[..5] == "user:";
    assert NoSlash(t[5..]);
    StarExample("", t);
    assert t[..0] == "" && t[0..] == t;
  }

  /** ... but not '/', matches at least one character, and keeps the literal prefix. */
  lemma StarNeedsSegment()
    ensures !MatchTopic("user:*", "user:")
    ensures !MatchTopic("user:*", "user:a/b")
    ensures !MatchTopic("user:*", "client:updated")
  {
    assert "user:" + "*" == "user:*";
    StarExample("user:", "user:");
    StarExample("user:", "user:a/b");
    assert "user:a/b"[5..][1] == '/';
    StarExample("user:", "client:updated");
    assert "client:updated"[..5][0] != "user:"[0];
  }

  /** `pre*` with a wildcard-free `pre`: the topics that extend `pre` by a run without '/'. */
  lemma {:induction false} StarExample(pre: string, t: string)
    requires NoWildcards(pre)
    ensures MatchTopic(pre + "*", t) <==> |pre| < |t| && t[..|pre|] == pre && NoSlash(t[|pre|..])
  {
    SingleStar(pre, "", t);
    assert pre + "*" + "" == pre + "*";
    if |pre| <= |t| {
      assert t[|t| - 0..] == [] && t[|pre|..|t| - 0] == t[|pre|..];
    }
  }

  /** A lone `#` is a literal character, not a wildcard. */
  lemma HashIsLiteral()
    ensures MatchTopic("user:#", "user:#")
    ensures !MatchTopic("user:#", "user:updated")
  {
    ExactMatchWithoutWildcards("user:#", "user:#");
    ExactMatchWithoutWildcards("user:#", "user:updated");
  }
}
