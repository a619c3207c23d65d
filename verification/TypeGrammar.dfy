/** The language of type names the parser accepts, written down without its scans, and that it accepts exactly that. */
module TypeGrammar {
  import opened Options
  import opened TypeText
  import opened TypeParser

  // ---------------------------------------------------------------- the language

  predicate White(s: string) { forall k :: 0 <= k < |s| ==> s[k] in {' ', '\t', '\n', '\r', '\U{0B}', '\U{0C}'} }

  /** s is the core with white space around it. */
  ghost predicate Around(s: string, core: string) { exists a, c :: White(a) && White(c) && s == a + core + c }

  function Count(s: string, c: char): int { multiset(s)[c] }

  /** How many of the first k characters open and do not close. */
  function AngleAt(s: string, k: nat): int
    requires k <= |s|
  {
    Count(s[..k], '<') - Count(s[..k], '>')
  }

  function ParenAt(s: string, k: nat): int
    requires k <= |s|
  {
    Count(s[..k], '(') - Count(s[..k], ')')
  }

  predicate AnglesMatch(s: string) { (forall k :: 0 <= k <= |s| ==> AngleAt(s, k) >= 0) && AngleAt(s, |s|) == 0 }

  predicate BracketsMatch(s: string) { AnglesMatch(s) && (forall k :: 0 <= k <= |s| ==> ParenAt(s, k) >= 0) && ParenAt(s, |s|) == 0 }

  predicate ColonsAt(s: string, k: nat) { k + 1 < |s| && s[k] == ':' && s[k + 1] == ':' && AngleAt(s, k) == 0 }

  predicate CommaAt(s: string, k: nat) { k < |s| && s[k] == ',' && AngleAt(s, k) == 0 && ParenAt(s, k) == 0 }

  predicate OpenAt(s: string, k: nat) { k < |s| && s[k] == '<' && AngleAt(s, k) == 0 }

  /** An optional sign and digits, then suffix letters. */
  predicate Literal(core: string, text: string, suffix: string) {
    && core == text + suffix && (forall k :: 0 <= k < |suffix| ==> suffix[k] in {'u', 'U', 'l', 'L'})
    && var sign := if text != "" && text[0] in {'+', '-'} then 1 else 0;
       sign < |text| && forall k :: sign <= k < |text| ==> '0' <= text[k] <= '9'
  }

  ghost predicate IntShape(core: string) { exists text, suffix :: Literal(core, text, suffix) }

  predicate Zeros(s: string) { forall k :: 0 <= k < |s| ==> s[k] == '0' }

  /** The decimal digits of the number, perhaps after zeros, with the sign in front. */
  ghost predicate Denotes(text: string, v: int)
    requires text != ""
  {
    var m, ds := if text[0] == '-' then -v else v, if IsSign(text[0]) then text[1..] else text;
    m >= 0 && Decimal(ds, m)
  }

  ghost predicate Decimal(ds: string, m: nat) { exists zeros :: Zeros(zeros) && ds == zeros + Digits(m) }

  /** A segment up to the double colons after it: outside angle brackets there are none before. */
  predicate Segment(s: string) { AngleAt(s, |s|) == 0 && forall k :: 0 <= k < |s| ==> !ColonsAt(s + "::", k) }

  predicate LastSegment(s: string) { forall k :: 0 <= k < |s| ==> !ColonsAt(s, k) }

  /** Segments between double colons, each a part with white space around it. */
  ghost predicate Segments(segs: seq<string>, parts: seq<string>) {
    && |segs| == |parts| && segs != []
    && (forall i {:trigger segs[i]} {:trigger parts[i]} :: 0 <= i < |segs| ==> Around(segs[i], parts[i]) && Tight(parts[i]))
    && (forall i :: 0 <= i < |segs| - 1 ==> Segment(segs[i])) && LastSegment(segs[|segs| - 1])
  }

  ghost predicate NameReads(name: string, parts: seq<string>) { exists segs :: Segments(segs, parts) && name == Join(segs, "::") }

  /** Text in front of a clause: a name with white space around it. */
  ghost predicate BaseReads(base: string, parts: seq<string>) { exists name :: Around(base, name) && Tight(name) && NameReads(name, parts) }

  /** The clause that ends the text opens at the last bracket outside all others. */
  predicate ClauseOf(core: string, base: string, args: string) {
    && core == base + "<" + args + ">"
    && OpenAt(core, |base|) && forall k :: |base| < k < |core| ==> !OpenAt(core, k)
  }

  predicate Token(s: string) { BracketsMatch(s) && forall k :: 0 <= k < |s| ==> !CommaAt(s, k) }

  /** Tokens between commas outside brackets. */
  predicate Tokens(args: string, toks: seq<string>) {
    && toks != [] && args == Join(toks, ",")
    && forall i :: 0 <= i < |toks| ==> Token(toks[i])
  }

  /** s is a text of the tree t. */
  ghost predicate Reads(s: string, t: TypeNode)
    decreases t, 1
  {
    exists core :: Around(s, core) && Tight(core) && CoreReads(core, t)
  }

  ghost predicate CoreReads(core: string, t: TypeNode)
    decreases t, 0
  {
    match t.nonTypeValue
    case Some(v) =>
      && -0x8000_0000 <= v <= 0x7fff_ffff && t.templateArgs == []
      && exists text, suffix :: Literal(core, text, suffix) && t.nameParts == [text] && Denotes(text, v)
    case None =>
      && !IntShape(core) && AnglesMatch(core)
      && if t.templateArgs == [] then NameReads(core, t.nameParts) && forall k :: 0 <= k < |core| ==> !OpenAt(core, k)
         else exists base, args :: ClauseOf(core, base, args) && BaseReads(base, t.nameParts) && ListReads(args, t.templateArgs)
  }

  /** The brackets of the list match, and each of its tokens is a text of the tree in its place. */
  ghost predicate ListReads(args: string, ts: seq<TypeNode>)
    decreases ts, 0
  {
    && BracketsMatch(args)
    && exists toks :: Tokens(args, toks) && |toks| == |ts| && forall i {:trigger toks[i]} :: 0 <= i < |toks| ==> Reads(toks[i], ts[i])
  }

  // ---------------------------------------------------------------- counting brackets

  lemma {:induction false} DepthCounts(s: string)
    ensures Angle(s) == Count(s, '<') - Count(s, '>') && Paren(s) == Count(s, '(') - Count(s, ')')
  {
    if s != [] {
      var init, last := s[..|s| - 1], s[|s| - 1];
      assert s == init + [last];
      assert multiset(s) == multiset(init) + multiset{last};
      DepthCounts(init);
    }
  }

  lemma DepthAt(s: string, k: nat)
    requires k <= |s|
    ensures Angle(s[..k]) == AngleAt(s, k) && Paren(s[..k]) == ParenAt(s, k)
  {
    DepthCounts(s[..k]);
  }

  lemma TopsAgree(s: string, k: nat)
    ensures TopColons(s, k) <==> ColonsAt(s, k)
    ensures TopComma(s, k) <==> CommaAt(s, k)
    ensures TopOpen(s, k) <==> OpenAt(s, k)
  {
    if k <= |s| { DepthAt(s, k); }
  }

  lemma {:induction false} NeverBelowAt(s: string)
    ensures NeverBelow(s) <==> forall k :: 0 <= k <= |s| ==> AngleAt(s, k) >= 0 && ParenAt(s, k) >= 0
    ensures AnglesOk(s) <==> forall k :: 0 <= k <= |s| ==> AngleAt(s, k) >= 0
  {
    if s == [] {
      DepthAt(s, 0);
    } else {
      var init := s[..|s| - 1];
      NeverBelowAt(init);
      DepthAt(s, |s|);
      assert s[..|s|] == s;
      forall k | 0 <= k <= |init| ensures AngleAt(init, k) == AngleAt(s, k) && ParenAt(init, k) == ParenAt(s, k) {
        assert init[..k] == s[..k];
      }
    }
  }

  lemma MatchAgree(s: string)
    ensures Balanced(s) <==> BracketsMatch(s)
    ensures AnglesOk(s) && Angle(s) == 0 <==> AnglesMatch(s)
  {
    NeverBelowAt(s);
    DepthAt(s, |s|);
    assert s[..|s|] == s;
  }

  // ---------------------------------------------------------------- white space

  lemma {:induction false} TrimLeftCuts(s: string) returns (a: string)
    ensures White(a) && s == a + TrimLeft(s) && (TrimLeft(s) == "" || !IsSpace(TrimLeft(s)[0]))
  {
    a := "";
    if s != "" && IsSpace(s[0]) {
      var rest := TrimLeftCuts(s[1..]);
      a := [s[0]] + rest;
    }
  }

  lemma {:induction false} TrimRightCuts(s: string) returns (c: string)
    ensures White(c) && s == TrimRight(s) + c && (TrimRight(s) == "" || !IsSpace(TrimRight(s)[|TrimRight(s)| - 1]))
  {
    c := "";
    if s != "" && IsSpace(s[|s| - 1]) {
      var rest := TrimRightCuts(s[..|s| - 1]);
      c := rest + [s[|s| - 1]];
    }
  }

  /** Trimming cuts white space at both ends and nothing else, and leaves none there. */
  lemma TrimExact(s: string)
    ensures Around(s, Trim(s)) && (Trim(s) == "" || Tight(Trim(s)))
  {
    var a := TrimLeftCuts(s);
    var c := TrimRightCuts(TrimLeft(s));
    assert s == a + Trim(s) + c;
    if Trim(s) != "" { assert Trim(s)[0] == TrimLeft(s)[0]; }
  }

  lemma {:induction false} TrimLeftOf(a: string, b: string)
    requires White(a) && (b == "" || !IsSpace(b[0]))
    ensures TrimLeft(a + b) == b
  {
    if a == "" {
      assert a + b == b;
    } else {
      assert (a + b)[1..] == a[1..] + b && (a + b)[0] == a[0];
      TrimLeftOf(a[1..], b);
    }
  }

  lemma {:induction false} TrimRightOf(b: string, c: string)
    requires White(c) && (b == "" || !IsSpace(b[|b| - 1]))
    ensures TrimRight(b + c) == b
  {
    if c == "" {
      assert b + c == b;
    } else {
      assert (b + c)[..|b + c| - 1] == b + c[..|c| - 1] && (b + c)[|b + c| - 1] == c[|c| - 1];
      TrimRightOf(b, c[..|c| - 1]);
    }
  }

  /** The core of a text is its trimmed form. */
  lemma TrimUnique(s: string, core: string)
    requires Around(s, core) && Tight(core)
    ensures Trim(s) == core
  {
    var a, c :| White(a) && White(c) && s == a + core + c;
    assert s == a + (core + c) && (core + c)[0] == core[0];
    TrimLeftOf(a, core + c);
    TrimRightOf(core, c);
  }

  // ---------------------------------------------------------------- integers

  lemma {:induction false} ZerosThenDigits(ds: string) returns (zeros: string)
    requires ds != "" && forall k :: 0 <= k < |ds| ==> IsDigit(ds[k])
    ensures Zeros(zeros) && ds == zeros + Digits(Magnitude(ds))
  {
    var init, last := ds[..|ds| - 1], ds[|ds| - 1];
    if init == "" {
      zeros := "";
    } else {
      zeros := ZerosThenDigits(init);
      if Magnitude(init) == 0 { zeros := zeros + "0"; }
    }
    assert Magnitude(ds) == 10 * Magnitude(init) + (last - '0') as nat;
    assert ds == init + [last];
  }

  lemma {:induction false} MagnitudeOf(zeros: string, m: nat)
    requires Zeros(zeros)
    ensures Magnitude(zeros + Digits(m)) == m
  {
    var s := zeros + Digits(m);
    if m >= 10 {
      MagnitudeOf(zeros, m / 10);
      assert s[..|s| - 1] == zeros + Digits(m / 10);
    } else {
      assert s[..|s| - 1] == zeros;
      MagnitudeZero(zeros);
    }
  }

  lemma {:induction false} MagnitudeZero(zeros: string)
    requires Zeros(zeros)
    ensures Magnitude(zeros) == 0
  {
    if zeros != "" { MagnitudeZero(zeros[..|zeros| - 1]); }
  }

  lemma DecimalExact(ds: string, m: nat)
    requires ds != "" && forall k :: 0 <= k < |ds| ==> IsDigit(ds[k])
    ensures Decimal(ds, m) <==> m == Magnitude(ds)
  {
    hide Digits, Magnitude;
    var zeros := ZerosThenDigits(ds);
    if z :| Zeros(z) && ds == z + Digits(m) { MagnitudeOf(z, m); }
  }

  /** The number the digits add up to is the one they are the digits of. */
  lemma MagnitudeExact(text: string, v: int)
    requires text != "" && var sign := if IsSign(text[0]) then 1 else 0; sign < |text| && forall k :: sign <= k < |text| ==> IsDigit(text[k])
    ensures Denotes(text, v) <==> v == Signed(text)
  {
    hide Digits, Magnitude, Decimal;
    var m := if text[0] == '-' then -v else v;
    if m >= 0 { DecimalExact(if IsSign(text[0]) then text[1..] else text, m); }
  }

  function Signed(text: string): int
    requires text != ""
  {
    var m: int := Magnitude(if IsSign(text[0]) then text[1..] else text);
    if text[0] == '-' then -m else m
  }

  lemma {:induction false} DigitsEndAt(s: string, i: nat, j: nat)
    requires i <= j <= |s| && (forall k :: i <= k < j ==> IsDigit(s[k])) && (j < |s| ==> !IsDigit(s[j]))
    ensures DigitsEnd(s, i) == j
    decreases j - i
  {
    if i < j { DigitsEndAt(s, i + 1, j); }
  }

  lemma LiteralIs(core: string, text: string, suffix: string)
    requires Literal(core, text, suffix)
    ensures IsIntLiteral(core) && DigitsEnd(core, SignEnd(core)) == |text| && core[..|text|] == text && LiteralValue(core) == Signed(text)
  {
    var i, d := SignEnd(core), DigitsEnd(core, SignEnd(core));
    assert text[0] == core[0];
    forall k | i <= k < |text| ensures IsDigit(core[k]) { assert core[k] == text[k]; }
    forall k | |text| <= k < |core| ensures IsSuffix(core[k]) { assert core[k] == suffix[k - |text|]; }
    DigitsEndAt(core, i, |text|);
    assert SuffixEnd(core, d) == |core|;
    assert core[i..d] == text[i..];
    if i == 0 { assert text[0..] == text; }
  }

  lemma LiteralOf(core: string)
    requires IsIntLiteral(core)
    ensures Literal(core, core[..DigitsEnd(core, SignEnd(core))], core[DigitsEnd(core, SignEnd(core))..])
  {
    var d := DigitsEnd(core, SignEnd(core));
    forall k | 0 <= k < |core[d..]| ensures IsSuffix(core[d..][k]) { assert core[d..][k] == core[d + k]; }
  }

  lemma IntShapeExact(core: string)
    ensures IsIntLiteral(core) <==> IntShape(core)
  {
    if IsIntLiteral(core) { LiteralOf(core); }
    if text, suffix :| Literal(core, text, suffix) { LiteralIs(core, text, suffix); }
  }

  // ---------------------------------------------------------------- names

  /** The segments of a name with their white space. */
  function RawParts(s: string): (ps: seq<string>)
    ensures |ps| >= 1
    decreases |s|
  {
    var j := Colons(s, 0);
    if j == |s| then [s] else [s[..j]] + RawParts(s[j + 2..])
  }

  lemma {:induction false} RawPartsAre(s: string)
    ensures |Parts(s)| == |RawParts(s)| && forall i :: 0 <= i < |Parts(s)| ==> Parts(s)[i] == Trim(RawParts(s)[i])
    decreases |s|
  {
    hide Trim;
    PartsStep(s);
    var j := Colons(s, 0);
    if j < |s| { RawPartsAre(s[j + 2..]); }
  }

  lemma NoneBefore(s: string, j: nat)
    requires j == Colons(s, 0)
    ensures forall k :: 0 <= k < j ==> !ColonsAt(s, k)
  {
    forall k | 0 <= k < j ensures !ColonsAt(s, k) {
      TopsAgree(s, k);
      assert !TopColons(s, k);
    }
  }

  lemma SegmentAt(s: string, j: nat)
    requires j == Colons(s, 0)
    ensures if j == |s| then LastSegment(s) else j + 2 <= |s| && Segment(s[..j]) && s == s[..j] + "::" + s[j + 2..]
  {
    NoneBefore(s, j);
    if j < |s| {
      TopsAgree(s, j);
      SegmentCut(s, j);
    }
  }

  lemma SegmentCut(s: string, j: nat)
    requires ColonsAt(s, j) && forall k :: 0 <= k < j ==> !ColonsAt(s, k)
    ensures Segment(s[..j]) && s == s[..j] + "::" + s[j + 2..]
  {
    var seg := s[..j];
    assert seg[..j] == s[..j];
    forall k | 0 <= k < |seg| ensures !ColonsAt(seg + "::", k) {
      SamePrefix(seg + "::", s, k);
    }
  }

  lemma SamePrefix(a: string, b: string, k: nat)
    requires k + 1 < |a| <= |b| && a == b[..|a|]
    ensures ColonsAt(a, k) <==> ColonsAt(b, k)
  {
    assert a[..k] == b[..k];
  }

  lemma {:induction false} RawPartsSegments(s: string)
    ensures
      var ps := RawParts(s);
      && s == Join(ps, "::") && (forall i :: 0 <= i < |ps| - 1 ==> Segment(ps[i])) && LastSegment(ps[|ps| - 1])
    decreases |s|
  {
    hide Segment, LastSegment, Join, Colons;
    var j, ps := Colons(s, 0), RawParts(s);
    SegmentAt(s, j);
    JoinStep(ps, "::");
    if j < |s| {
      RawPartsSegments(s[j + 2..]);
      assert ps[1..] == RawParts(s[j + 2..]);
    }
  }

  lemma ColonsHere(seg: string, rest: string)
    requires Segment(seg)
    ensures Colons(seg + "::" + rest, 0) == |seg|
  {
    var s := seg + "::" + rest;
    assert s[..|seg| + 2] == seg + "::" && s[..|seg|] == seg == seg[..|seg|];
    forall k {:trigger TopColons(s, k)} | 0 <= k < |seg| ensures !TopColons(s, k) {
      TopsAgree(s, k);
      SamePrefix(seg + "::", s, k);
    }
    TopsAgree(s, |seg|);
    assert ColonsAt(s, |seg|);
    ColonsUnique(s, |seg|);
  }

  lemma NoColons(seg: string)
    requires LastSegment(seg)
    ensures Colons(seg, 0) == |seg|
  {
    forall k {:trigger TopColons(seg, k)} | 0 <= k < |seg| ensures !TopColons(seg, k) { TopsAgree(seg, k); }
    ColonsUnique(seg, |seg|);
  }

  lemma {:induction false} RawPartsBack(segs: seq<string>)
    requires segs != [] && (forall i :: 0 <= i < |segs| - 1 ==> Segment(segs[i])) && LastSegment(segs[|segs| - 1])
    ensures RawParts(Join(segs, "::")) == segs
  {
    hide Segment, LastSegment, Join, Colons;
    JoinStep(segs, "::");
    if |segs| == 1 {
      NoColons(segs[0]);
    } else {
      var rest := Join(segs[1..], "::");
      RawPartsBack(segs[1..]);
      ColonsHere(segs[0], rest);
      var s := segs[0] + "::" + rest;
      assert s[..|segs[0]|] == segs[0] && s[|segs[0]| + 2..] == rest;
    }
  }

  /** The base parses exactly as the name reads. */
  lemma NameExact(name: string, parts: seq<string>)
    requires Tight(name)
    ensures ParseBase(name, []) == Some(TypeNode(parts, None, [])) <==> NameReads(name, parts)
  {
    hide Trim, Parts, RawParts, Segment, LastSegment, Join, Around, Tight;
    var raw := RawParts(name);
    RawPartsAre(name);
    RawPartsSegments(name);
    assert name != "" by { TightSome(name); }
    if ParseBase(name, []) == Some(TypeNode(parts, None, [])) {
      assert parts == Parts(name) && "" !in parts;
      forall i {:trigger raw[i]} {:trigger parts[i]} | 0 <= i < |raw| ensures Around(raw[i], parts[i]) && Tight(parts[i]) {
        TrimExact(raw[i]);
        assert parts[i] in parts;
      }
      assert Segments(raw, parts);
    }
    if segs :| Segments(segs, parts) && name == Join(segs, "::") {
      RawPartsBack(segs);
      forall i | 0 <= i < |parts| ensures Parts(name)[i] == parts[i] && parts[i] != "" {
        assert Around(segs[i], parts[i]) && Tight(parts[i]);
        TrimUnique(segs[i], parts[i]);
        TightSome(parts[i]);
      }
      assert Parts(name) == parts;
    }
  }

  lemma TightSome(s: string)
    requires Tight(s)
    ensures s != ""
  {}

  lemma BaseExact(base: string, parts: seq<string>)
    ensures ParseBase(Trim(base), []) == Some(TypeNode(parts, None, [])) <==> BaseReads(base, parts)
  {
    TrimExact(base);
    hide Trim, NameReads, Tight, Around;
    if ParseBase(Trim(base), []) == Some(TypeNode(parts, None, [])) { NameExact(Trim(base), parts); }
    if name :| Around(base, name) && Tight(name) && NameReads(name, parts) {
      TrimUnique(base, name);
      NameExact(name, parts);
    }
  }

  // ---------------------------------------------------------------- clauses and lists

  lemma OpensExact(core: string)
    ensures LastOpen(core, |core|).None? <==> forall k :: 0 <= k < |core| ==> !OpenAt(core, k)
    ensures forall j: nat :: LastOpen(core, |core|) == Some(j) <==> OpenAt(core, j) && forall k :: j < k < |core| ==> !OpenAt(core, k)
  {
    forall k: nat ensures TopOpen(core, k) <==> OpenAt(core, k) { TopsAgree(core, k); }
    hide TopOpen, OpenAt;
    forall j: nat | j < |core| && OpenAt(core, j) && forall k :: j < k < |core| ==> !OpenAt(core, k) ensures LastOpen(core, |core|) == Some(j) {
      assert TopOpen(core, j);
      forall i {:trigger TopOpen(core, i)} | 0 <= i < |core| && TopOpen(core, i) ensures i <= j { assert OpenAt(core, i); }
      OpenLast(core, j);
    }
    OpenInside(core);
  }

  lemma OpenInside(core: string)
    ensures forall j: nat :: OpenAt(core, j) ==> j < |core|
  {}

  lemma TokenOk(tok: string)
    ensures Token(tok) <==> Balanced(tok) && NoComma(tok)
  {
    MatchAgree(tok);
    forall k: nat ensures TopComma(tok, k) <==> CommaAt(tok, k) { TopsAgree(tok, k); }
    if forall k :: 0 <= k < |tok| ==> !CommaAt(tok, k) { CommaUnique(tok, |tok|); }
  }

  lemma {:induction false} TokensArePieces(toks: seq<string>)
    requires toks != [] && forall i :: 0 <= i < |toks| ==> Balanced(toks[i]) && NoComma(toks[i])
    ensures Pieces(Join(toks, ",")) == toks
  {
    hide Pieces, Balanced, NoComma, Join;
    JoinStep(toks, ",");
    if |toks| == 1 {
      PiecesOf(toks[0], "");
    } else {
      TokensArePieces(toks[1..]);
      PiecesOf(toks[0], Join(toks[1..], ","));
    }
  }

  lemma TokensExact(args: string, toks: seq<string>)
    requires Balanced(args)
    ensures Tokens(args, toks) <==> toks == Pieces(args)
  {
    hide Balanced, NoComma, Pieces, Join, Token;
    PiecesRejoin(args);
    if Tokens(args, toks) {
      forall i | 0 <= i < |toks| ensures Balanced(toks[i]) && NoComma(toks[i]) { TokenOk(toks[i]); }
      TokensArePieces(toks);
    }
    forall i | 0 <= i < |Pieces(args)| ensures Token(Pieces(args)[i]) {
      PiecesBalanced(args, i);
      TokenOk(Pieces(args)[i]);
    }
  }

  lemma {:induction false} AllParse(toks: seq<string>, ts: seq<TypeNode>, n: nat)
    requires forall i :: 0 <= i < |toks| ==> |toks[i]| < n
    ensures ParseAll(toks, n) == Some(ts) <==> |toks| == |ts| && forall i :: 0 <= i < |toks| ==> Parse(toks[i]) == Some(ts[i])
  {
    hide Parse;
    if toks != [] && ts != [] {
      assert ts == [ts[0]] + ts[1..];
      AllParse(toks[1..], ts[1..], n);
    }
  }

  // ---------------------------------------------------------------- the parser reads exactly the language

  /** The parser gives a tree for a text exactly if it is a text of that tree. */
  lemma {:induction false} ParseExactly(s: string, t: TypeNode)
    ensures Parse(s) == Some(t) <==> Reads(s, t)
    decreases t
  {
    TrimExact(s);
    var core := Trim(s);
    forall c | Around(s, c) && Tight(c) ensures c == core { TrimUnique(s, c); }
    if core == "" {
      EmptyNever(s, t);
    } else {
      CoreExactly(s, core, t);
    }
  }

  lemma EmptyNever(s: string, t: TypeNode)
    requires Trim(s) == "" && forall c :: Around(s, c) && Tight(c) ==> c == ""
    ensures Parse(s) != Some(t) && !Reads(s, t)
  {
    hide CoreReads, Trim, Around;
  }

  lemma {:induction false} CoreExactly(s: string, core: string, t: TypeNode)
    requires core == Trim(s) && Around(s, core) && Tight(core) && forall c :: Around(s, c) && Tight(c) ==> c == core
    ensures Parse(s) == Some(t) <==> Reads(s, t)
    decreases t, 0
  {
    assert Reads(s, t) <==> CoreReads(core, t) by { hide CoreReads; }
    IntShapeExact(core);
    if IsIntLiteral(core) {
      IntExactly(s, core, t);
    } else {
      MatchAgree(core);
      OpensExact(core);
      match LastOpen(core, |core|) {
        case None => PlainExactly(s, core, t);
        case Some(k) =>
          forall i, tok {:trigger Reads(tok, t.templateArgs[i])} | 0 <= i < |t.templateArgs| ensures Parse(tok) == Some(t.templateArgs[i]) <==> Reads(tok, t.templateArgs[i]) {
            ParseExactly(tok, t.templateArgs[i]);
          }
          ClauseExactly(s, core, k, t);
      }
    }
  }

  lemma IntExactly(s: string, core: string, t: TypeNode)
    requires core == Trim(s) && Tight(core) && IsIntLiteral(core) && IntShape(core)
    ensures Parse(s) == Some(t) <==> CoreReads(core, t)
  {
    var text, suffix := core[..DigitsEnd(core, SignEnd(core))], core[DigitsEnd(core, SignEnd(core))..];
    LiteralOf(core);
    LiteralIs(core, text, suffix);
    forall x, y | Literal(core, x, y) ensures x == text { LiteralIs(core, x, y); }
    forall v ensures Denotes(text, v) <==> v == Signed(text) { MagnitudeExact(text, v); }
    hide IsIntLiteral, Trim, Literal, LiteralValue, Signed, Denotes;
  }

  lemma PlainExactly(s: string, core: string, t: TypeNode)
    requires core == Trim(s) && Tight(core) && !IsIntLiteral(core) && !IntShape(core) && LastOpen(core, |core|).None?
    requires AnglesOk(core) && Angle(core) == 0 <==> AnglesMatch(core)
    requires forall k :: 0 <= k < |core| ==> !OpenAt(core, k)
    ensures Parse(s) == Some(t) <==> CoreReads(core, t)
  {
    NameExact(core, t.nameParts);
    hide IsIntLiteral, IntShape, Trim, NameReads, OpenAt, Tight;
    assert core != "" by { TightSome(core); }
    assert !exists base, args :: ClauseOf(core, base, args) by {
      forall base, args ensures !ClauseOf(core, base, args) {
        if ClauseOf(core, base, args) { OpenInside(core); }
      }
    }
  }

  /** The parser's way through a name with a clause that opens at k. */
  ghost predicate ClauseRead(core: string, k: nat, t: TypeNode) {
    && k < |core| - 1 && core[|core| - 1] == '>'
    && ParseBase(Trim(core[..k]), []) == Some(TypeNode(t.nameParts, None, []))
    && ListRead(core[k + 1..|core| - 1], t.templateArgs)
  }

  ghost predicate ListRead(args: string, ts: seq<TypeNode>) {
    && Balanced(args) && |Pieces(args)| == |ts|
    && forall i :: 0 <= i < |ts| ==> Parse(Pieces(args)[i]) == Some(ts[i])
  }

  lemma ListParsed(args: string, ts: seq<TypeNode>)
    ensures forall i :: 0 <= i < |Pieces(args)| ==> |Pieces(args)[i]| < |args| + 1
    ensures Balanced(args) ==> (ParseAll(Pieces(args), |args| + 1) == Some(ts) <==> ListRead(args, ts))
  {
    PiecesShort(args);
    AllParse(Pieces(args), ts, |args| + 1);
    hide Parse, Balanced, Pieces, ParseAll;
  }

  lemma ClauseParsed(s: string, core: string, k: nat, t: TypeNode)
    requires core == Trim(s) && core != "" && !IsIntLiteral(core) && LastOpen(core, |core|) == Some(k)
    ensures Parse(s) == Some(t) <==> AnglesOk(core) && Angle(core) == 0 && t.nonTypeValue.None? && ClauseRead(core, k, t)
  {
    hide Parse, ParseAll, Pieces, Trim, IsIntLiteral, LastOpen, AnglesOk, Angle, Balanced, ListRead, ParseBase;
    if core[|core| - 1] == '>' {
      assert core[k] == '<';
      var args := core[k + 1..|core| - 1];
      ListParsed(args, t.templateArgs);
      ClauseWay(s, core, k, args);
      BaseOnly(Trim(core[..k]), t);
      ListBalanced(args, t.templateArgs);
    } else {
      NoClauseEnd(s, core, k);
    }
  }

  lemma ListBalanced(args: string, ts: seq<TypeNode>)
    ensures ListRead(args, ts) ==> Balanced(args)
  {}

  lemma BaseOnly(base: string, t: TypeNode)
    ensures ParseBase(base, []).Some? ==> ParseBase(base, []).value == TypeNode(Parts(base), None, [])
  {}

  lemma NoClauseEnd(s: string, core: string, k: nat)
    requires core == Trim(s) && core != "" && !IsIntLiteral(core) && LastOpen(core, |core|) == Some(k) && core[|core| - 1] != '>'
    ensures Parse(s).None?
  {
    hide Trim, IsIntLiteral, LastOpen, AnglesOk, Angle, Pieces, ParseAll, Balanced, ParseBase;
  }

  lemma ClauseWay(s: string, core: string, k: nat, args: string)
    requires core == Trim(s) && core != "" && !IsIntLiteral(core) && LastOpen(core, |core|) == Some(k)
    requires core[|core| - 1] == '>' && k < |core| - 1 && args == core[k + 1..|core| - 1]
    requires forall i :: 0 <= i < |Pieces(args)| ==> |Pieces(args)[i]| < |args| + 1
    ensures Parse(s) ==
              var base, ts := ParseBase(Trim(core[..k]), []), ParseAll(Pieces(args), |args| + 1);
              if AnglesOk(core) && Angle(core) == 0 && base.Some? && Balanced(args) && ts.Some? then Some(base.value.(templateArgs := ts.value)) else None
  {
    hide Trim, IsIntLiteral, LastOpen, AnglesOk, Angle, Pieces, ParseAll, Balanced, ParseBase;
  }

  /** What is known of the arguments: each is read exactly if it parses. */
  ghost predicate ArgsExact(ts: seq<TypeNode>) {
    forall i, tok {:trigger Reads(tok, ts[i])} :: 0 <= i < |ts| ==> (Parse(tok) == Some(ts[i]) <==> Reads(tok, ts[i]))
  }

  lemma ClauseExactly(s: string, core: string, k: nat, t: TypeNode)
    requires core == Trim(s) && Tight(core) && !IsIntLiteral(core) && !IntShape(core) && LastOpen(core, |core|) == Some(k)
    requires AnglesOk(core) && Angle(core) == 0 <==> AnglesMatch(core)
    requires OpenAt(core, k) && forall i :: k < i < |core| ==> !OpenAt(core, i)
    requires ArgsExact(t.templateArgs)
    ensures Parse(s) == Some(t) <==> CoreReads(core, t)
  {
    TightSome(core);
    ClauseParsed(s, core, k, t);
    hide Parse, Trim, LastOpen, OpenAt, ClauseRead, ArgsExact, CoreReads, Tight;
    if t.nonTypeValue.Some? {
      NotLiteral(core, t);
    } else if AnglesMatch(core) {
      if ClauseRead(core, k, t) { ClauseWitness(core, k, t); }
      if CoreReads(core, t) { ClauseReads(core, k, t); }
    } else if CoreReads(core, t) {
      AnglesNeeded(core, t);
    }
  }

  lemma AnglesNeeded(core: string, t: TypeNode)
    requires t.nonTypeValue.None? && CoreReads(core, t)
    ensures AnglesMatch(core)
  {}

  lemma NotLiteral(core: string, t: TypeNode)
    requires !IntShape(core) && t.nonTypeValue.Some?
    ensures !CoreReads(core, t)
  {}

  lemma ClauseReads(core: string, k: nat, t: TypeNode)
    requires OpenAt(core, k) && t.nonTypeValue.None? && CoreReads(core, t) && forall i :: k < i < |core| ==> !OpenAt(core, i)
    requires ArgsExact(t.templateArgs)
    ensures ClauseRead(core, k, t)
  {
    OpenInside(core);
    hide Pieces, BaseReads, ListReads, OpenAt, Trim, ParseBase, ArgsExact, ListRead;
    assert t.templateArgs != [];
    var base, args :| ClauseOf(core, base, args) && BaseReads(base, t.nameParts) && ListReads(args, t.templateArgs);
    OneClause(core, base, args, k);
    BaseExact(base, t.nameParts);
    ListExact(args, t.templateArgs);
  }

  lemma ListExact(args: string, ts: seq<TypeNode>)
    requires ArgsExact(ts) && ts != []
    ensures ListRead(args, ts) <==> ListReads(args, ts)
  {
    MatchAgree(args);
    hide BracketsMatch, Tokens, Pieces, Parse, Reads, Balanced;
    if Balanced(args) {
      var toks := Pieces(args);
      TokensExact(args, toks);
      if ListReads(args, ts) {
        var ws :| Tokens(args, ws) && |ws| == |ts| && forall i {:trigger ws[i]} :: 0 <= i < |ws| ==> Reads(ws[i], ts[i]);
        TokensExact(args, ws);
        assert forall i :: 0 <= i < |ts| ==> Reads(toks[i], ts[i]);
      }
      if ListRead(args, ts) {
        forall i {:trigger toks[i]} | 0 <= i < |toks| ensures Reads(toks[i], ts[i]) { ArgExact(ts, i, toks[i]); }
      }
    }
  }

  lemma OneClause(core: string, base: string, args: string, k: nat)
    requires ClauseOf(core, base, args) && OpenAt(core, k) && forall i :: k < i < |core| ==> !OpenAt(core, i)
    ensures |base| == k < |core| - 1 && core[|core| - 1] == '>' && core[..k] == base && core[k + 1..|core| - 1] == args
  {}

  lemma ClauseSplit(core: string, k: nat)
    requires OpenAt(core, k) && (forall i :: k < i < |core| ==> !OpenAt(core, i)) && k < |core| - 1 && core[|core| - 1] == '>'
    ensures ClauseOf(core, core[..k], core[k + 1..|core| - 1])
  {}

  lemma SomeListed(args: string, ts: seq<TypeNode>)
    ensures ListRead(args, ts) ==> ts != []
  {}

  lemma ClauseWitness(core: string, k: nat, t: TypeNode)
    requires !IntShape(core) && OpenAt(core, k) && t.nonTypeValue.None? && AnglesMatch(core) && ClauseRead(core, k, t)
    requires forall i :: k < i < |core| ==> !OpenAt(core, i)
    requires ArgsExact(t.templateArgs)
    ensures CoreReads(core, t)
  {
    hide AnglesMatch, IntShape, Trim, ParseBase, ClauseOf, ArgsExact, ListRead, ListReads, BaseReads;
    var base, args := core[..k], core[k + 1..|core| - 1];
    ClauseSplit(core, k);
    SomeListed(args, t.templateArgs);
    hide OpenAt;
    BaseExact(base, t.nameParts);
    ListExact(args, t.templateArgs);
  }

  lemma ArgExact(ts: seq<TypeNode>, i: nat, tok: string)
    requires ArgsExact(ts) && i < |ts|
    ensures Parse(tok) == Some(ts[i]) <==> Reads(tok, ts[i])
  {}
}
