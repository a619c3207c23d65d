/** Parsing demangled type names into trees, and the printer it undoes. */
module TypeParser {
  import opened Options
  import opened TypeText

  /** A named type with template arguments, or an integer argument. */
  datatype TypeNode = TypeNode(nameParts: seq<string>, nonTypeValue: Option<int>, templateArgs: seq<TypeNode>)

  const INT_MIN: int := -0x8000_0000

  const INT_MAX: int := 0x7fff_ffff

  // ---------------------------------------------------------------- integer literals

  predicate IsSign(c: char) { c == '+' || c == '-' }

  predicate IsSuffix(c: char) { c in {'u', 'U', 'l', 'L'} }

  function SignEnd(s: string): (i: nat)
    ensures i <= |s|
  {
    if s != [] && IsSign(s[0]) then 1 else 0
  }

  function DigitsEnd(s: string, i: nat): (j: nat)
    requires i <= |s|
    ensures i <= j <= |s| && (j < |s| ==> !IsDigit(s[j])) && forall k :: i <= k < j ==> IsDigit(s[k])
    decreases |s| - i
  {
    if i < |s| && IsDigit(s[i]) then DigitsEnd(s, i + 1) else i
  }

  function SuffixEnd(s: string, i: nat): (j: nat)
    requires i <= |s|
    ensures i <= j <= |s| && (j < |s| ==> !IsSuffix(s[j])) && forall k :: i <= k < j ==> IsSuffix(s[k])
    decreases |s| - i
  {
    if i < |s| && IsSuffix(s[i]) then SuffixEnd(s, i + 1) else i
  }

  /** An optional sign, digits, and nothing but suffix letters after them. */
  predicate IsIntLiteral(s: string) {
    var d := DigitsEnd(s, SignEnd(s));
    d > SignEnd(s) && SuffixEnd(s, d) == |s|
  }

  function Magnitude(ds: string): nat {
    if ds == [] then 0 else 10 * Magnitude(ds[..|ds| - 1]) + if IsDigit(ds[|ds| - 1]) then (ds[|ds| - 1] - '0') as nat else 0
  }

  /** The number the sign and the digits denote. */
  function LiteralValue(s: string): int
    requires IsIntLiteral(s)
  {
    var m: int := Magnitude(s[SignEnd(s)..DigitsEnd(s, SignEnd(s))]);
    if s[0] == '-' then -m else m
  }

  // ---------------------------------------------------------------- the last clause and the base

  /** Depth counted in angle brackets only never goes below zero. */
  predicate AnglesOk(s: string) {
    s != [] ==> AnglesOk(s[..|s| - 1]) && Angle(s) >= 0
  }

  predicate TopOpen(s: string, k: nat) { k < |s| && s[k] == '<' && Angle(s[..k]) == 0 }

  /** Position of the last opening bracket at depth zero before n, or None. */
  function LastOpen(s: string, n: nat): (r: Option<nat>)
    requires n <= |s|
    ensures r.Some? ==> r.value < n && TopOpen(s, r.value) && forall k {:trigger TopOpen(s, k)} :: r.value < k < n ==> !TopOpen(s, k)
    ensures r.None? ==> forall k {:trigger TopOpen(s, k)} :: 0 <= k < n ==> !TopOpen(s, k)
  {
    if n == 0 then None else if TopOpen(s, n - 1) then Some(n - 1) else LastOpen(s, n - 1)
  }

  predicate TopColons(s: string, k: nat) { k + 1 < |s| && s[k] == ':' && s[k + 1] == ':' && Angle(s[..k]) == 0 }

  function Colons(s: string, i: nat): (j: nat)
    requires i <= |s|
    ensures i <= j <= |s|
    ensures j < |s| ==> TopColons(s, j)
    ensures forall k {:trigger TopColons(s, k)} :: i <= k < j ==> !TopColons(s, k)
    decreases |s| - i
  {
    if i == |s| || TopColons(s, i) then i else Colons(s, i + 1)
  }

  /** The trimmed parts between double colons outside angle brackets. */
  function Parts(s: string): (ps: seq<string>)
    ensures |ps| >= 1
    decreases |s|
  {
    var j := Colons(s, 0);
    if j == |s| then [Trim(s)] else [Trim(s[..j])] + Parts(s[j + 2..])
  }

  // ---------------------------------------------------------------- the parser

  function Parse(raw: string): Option<TypeNode>
    decreases |raw|, 0
  {
    var s := Trim(raw);
    if s == "" then None
    else if IsIntLiteral(s) then
      var v := LiteralValue(s);
      if INT_MIN <= v <= INT_MAX then Some(TypeNode([s[..DigitsEnd(s, SignEnd(s))]], Some(v), [])) else None
    else if !(AnglesOk(s) && Angle(s) == 0) then None
    else
      match LastOpen(s, |s|)
      case None => ParseBase(s, [])
      case Some(k) =>
        if s[|s| - 1] != '>' then None
        else
          var args := s[k + 1..|s| - 1];
          var base := ParseBase(Trim(s[..k]), []);
          if base.None? || !Balanced(args) then None
          else
            PiecesShort(args);
            match ParseAll(Pieces(args), |args| + 1)
            case None => None
            case Some(ts) => Some(base.value.(templateArgs := ts))
  }

  function ParseBase(base: string, args: seq<TypeNode>): Option<TypeNode> {
    if base == "" || "" in Parts(base) then None else Some(TypeNode(Parts(base), None, args))
  }

  function ParseAll(tokens: seq<string>, n: nat): (r: Option<seq<TypeNode>>)
    requires forall i :: 0 <= i < |tokens| ==> |tokens[i]| < n
    decreases n, |tokens|
  {
    if tokens == [] then Some([])
    else
      match Parse(tokens[0])
      case None => None
      case Some(t) =>
        match ParseAll(tokens[1..], n)
        case None => None
        case Some(ts) => Some([t] + ts)
  }

  lemma {:induction false} PiecesShort(s: string)
    ensures forall i :: 0 <= i < |Pieces(s)| ==> |Pieces(s)[i]| <= |s|
    decreases |s|
  {
    var j := Comma(s, 0);
    if j < |s| {
      PiecesShort(s[j + 1..]);
      forall i | 0 <= i < |Pieces(s)| ensures |Pieces(s)[i]| <= |s| {
        if i > 0 { assert Pieces(s)[i] == Pieces(s[j + 1..])[i - 1]; }
      }
    }
  }

  // ---------------------------------------------------------------- the printer

  function Digits(n: nat): (ds: string)
    ensures |ds| >= 1 && forall k :: 0 <= k < |ds| ==> IsDigit(ds[k])
  {
    if n < 10 then [('0' as int + n) as char] else Digits(n / 10) + [('0' as int + n % 10) as char]
  }

  function ShowInt(v: int): string { if v < 0 then "-" + Digits(-v) else Digits(v) }

  /** The parts joined by double colons, then the arguments in a clause. */
  function Show(t: TypeNode): string {
    Join(t.nameParts, "::") +
    if t.templateArgs == [] then "" else "<" + Join(seq(|t.templateArgs|, i requires 0 <= i < |t.templateArgs| => Show(t.templateArgs[i])), ", ") + ">"
  }

  /** Text of an integer literal without a suffix, and its value. */
  predicate IntText(s: string, v: int) {
    IsIntLiteral(s) && DigitsEnd(s, SignEnd(s)) == |s| && LiteralValue(s) == v
  }

  /** Any text without space at its ends whose angle brackets match and enclose all its double colons. */
  predicate NamePart(s: string) {
    Tight(s) && AnglesOk(s) && Angle(s) == 0 && forall k {:trigger TopColons(s, k)} :: 0 <= k < |s| ==> !TopColons(s, k)
  }

  predicate EndsInColon(s: string) { s != [] && s[|s| - 1] == ':' }

  /** No part but the last ends in a colon, and in the whole name brackets match and enclose all commas. */
  predicate NameOk(parts: seq<string>) {
    && parts != [] && (forall i :: 0 <= i < |parts| ==> NamePart(parts[i]))
    && (forall i :: 0 <= i < |parts| - 1 ==> !EndsInColon(parts[i]))
    && Balanced(Join(parts, "::")) && NoComma(Join(parts, "::"))
  }

  /** Trees the text of which says all: names as above, which without arguments must not look like a clause or an integer. */
  predicate WellFormed(t: TypeNode) {
    match t.nonTypeValue
    case Some(v) => INT_MIN <= v <= INT_MAX && |t.nameParts| == 1 && IntText(t.nameParts[0], v) && t.templateArgs == []
    case None =>
      && NameOk(t.nameParts)
      && (t.templateArgs == [] ==> '<' !in Join(t.nameParts, "::") && !IsIntLiteral(Join(t.nameParts, "::")))
      && (forall i :: 0 <= i < |t.templateArgs| ==> WellFormed(t.templateArgs[i]))
  }

  function Texts(ts: seq<TypeNode>): (r: seq<string>)
    ensures |r| == |ts|
  {
    seq(|ts|, i requires 0 <= i < |ts| => Show(ts[i]))
  }

  // ---------------------------------------------------------------- integers come back

  lemma {:induction false} MagnitudeDigits(n: nat)
    ensures Magnitude(Digits(n)) == n
  {
    if n < 10 {
      assert Digits(n)[..0] == [];
      assert Magnitude("") == 0;
    } else {
      MagnitudeDigits(n / 10);
      assert Digits(n)[..|Digits(n)| - 1] == Digits(n / 10);
    }
  }

  lemma IntParses(s: string, v: int)
    requires INT_MIN <= v <= INT_MAX && IntText(s, v)
    ensures Good(s) && Parse(s) == Some(TypeNode([s], Some(v), [])) && Parse(" " + s) == Some(TypeNode([s], Some(v), []))
  {
    IntFlat(s);
    TrimTight(s);
    FlatGood(s);
    assert s[..|s|] == s;
    hide IsIntLiteral, LiteralValue, Trim, DigitsEnd;
  }

  /** A sign, digits and suffix letters: no brackets, commas or spaces. */
  lemma IntFlat(s: string)
    requires IsIntLiteral(s)
    ensures Flat(s) && Tight(s)
  {
    var i := SignEnd(s);
    var d := DigitsEnd(s, i);
    forall k | 0 <= k < |s| ensures s[k] !in {'<', '>', '(', ')', ','} && !IsSpace(s[k]) {
      if k >= d { assert IsSuffix(s[k]); } else if k >= i { assert IsDigit(s[k]); }
    }
  }

  /** Every number in range has such a text. */
  lemma IntLiteral(v: int)
    ensures IntText(ShowInt(v), v)
  {
    hide Digits, Magnitude;
    var s := ShowInt(v);
    var i := SignEnd(s);
    var ds := Digits(if v < 0 then -v else v);
    assert s[i..] == ds;
    forall k | i <= k < |s| ensures IsDigit(s[k]) { assert s[k] == ds[k - i]; }
    assert DigitsEnd(s, i) == |s|;
    assert s[i..|s|] == ds && s[..|s|] == s;
    MagnitudeDigits(if v < 0 then -v else v);
  }

  // ---------------------------------------------------------------- flat text

  predicate Flat(s: string) { forall k :: 0 <= k < |s| ==> s[k] !in {'<', '>', '(', ')', ','} }

  lemma {:induction false} FlatDepth(s: string)
    requires Flat(s)
    ensures Angle(s) == 0 && Paren(s) == 0 && NeverBelow(s)
  {
    if s != [] { FlatDepth(s[..|s| - 1]); }
  }

  /** Text fit to be a template argument: balanced, no comma outside brackets, no space at its ends. */
  predicate Good(s: string) { Balanced(s) && NoComma(s) && Tight(s) }

  lemma FlatGood(s: string)
    requires Flat(s)
    ensures Balanced(s) && NoComma(s)
  {
    FlatDepth(s);
  }

  lemma {:induction false} AnglesFromNeverBelow(s: string)
    requires NeverBelow(s)
    ensures AnglesOk(s)
  {
    if s != [] { AnglesFromNeverBelow(s[..|s| - 1]); }
  }

  lemma BalancedConcat(a: string, b: string)
    requires Balanced(a) && Balanced(b)
    ensures Balanced(a + b)
  {
    NeverBelowConcat(a, b);
    DepthConcat(a, b);
  }

  /** Balanced text in a pair of brackets after balanced text: depth is positive in between, so the last clause opens where the first text ends. */
  lemma Clause(base: string, inner: string)
    requires Balanced(base) && NoComma(base) && Balanced(inner)
    ensures
      var s := base + "<" + inner + ">";
      Balanced(s) && NoComma(s) && AnglesOk(s) && LastOpen(s, |s|) == Some(|base|)
  {
    var s := base + "<" + inner + ">";
    OneOpen();
    var open := base + "<";
    DepthConcat(base, "<");
    NeverBelowConcat(base, "<");
    DepthConcat(open, inner);
    NeverBelowConcat(open, inner);
    assert s[..|s| - 1] == open + inner && s[|s| - 1] == '>';
    AnglesFromNeverBelow(s);
    forall k | 0 <= k < |s| ensures !TopComma(s, k) && (TopOpen(s, k) ==> k <= |base|) {
      ClauseDepth(base, inner, k);
    }
    ClauseDepth(base, inner, |base|);
    CommaUnique(s, |s|);
    OpenLast(s, |base|);
  }

  lemma OneOpen()
    ensures Angle("<") == 1 && Paren("<") == 0 && NeverBelow("<")
  {
    assert "<"[..0] == [];
  }

  lemma ClauseDepth(base: string, inner: string, k: nat)
    requires Balanced(base) && NoComma(base) && Balanced(inner) && k < |base + "<" + inner + ">"|
    ensures !TopComma(base + "<" + inner + ">", k) && (TopOpen(base + "<" + inner + ">", k) ==> k <= |base|)
    ensures k == |base| ==> TopOpen(base + "<" + inner + ">", k)
  {
    var s := base + "<" + inner + ">";
    if k <= |base| {
      assert s[..k] == base[..k];
      assert base[..|base|] == base;
      if k < |base| { assert s[k] == base[k] && !TopComma(base, k); }
    } else {
      var j := k - |base| - 1;
      assert s[..k] == (base + "<") + inner[..j];
      OneOpen();
      DepthConcat(base, "<");
      DepthConcat(base + "<", inner[..j]);
      NeverBelowPrefix(inner, j);
    }
  }

  lemma OpenLast(s: string, k: nat)
    requires TopOpen(s, k) && forall j {:trigger TopOpen(s, j)} :: 0 <= j < |s| && TopOpen(s, j) ==> j <= k
    ensures LastOpen(s, |s|) == Some(k)
  {
    assert k < |s|;
    hide TopOpen;
    var r := LastOpen(s, |s|);
    assert TopOpen(s, k) && (r.Some? ==> TopOpen(s, r.value));
  }

  // ---------------------------------------------------------------- bases

  /** A joined name has no space at its ends either. */
  lemma {:induction false} JoinedTight(parts: seq<string>)
    requires parts != [] && forall i :: 0 <= i < |parts| ==> Tight(parts[i])
    ensures Tight(Join(parts, "::"))
  {
    if |parts| > 1 { JoinedTight(parts[1..]); }
  }

  lemma NameTight(parts: seq<string>)
    requires NameOk(parts)
    ensures var s := Join(parts, "::"); Tight(s) && Balanced(s) && NoComma(s) && AnglesOk(s) && Angle(s) == 0
  {
    forall i | 0 <= i < |parts| ensures Tight(parts[i]) { assert NamePart(parts[i]); }
    JoinedTight(parts);
    AnglesFromNeverBelow(Join(parts, "::"));
  }

  lemma ColonsAfter(a: string, b: string)
    requires NamePart(a)
    ensures Colons(a, 0) == |a|
    ensures !EndsInColon(a) ==> Colons(a + "::" + b, 0) == |a|
  {
    ColonsUnique(a, |a|);
    var s := a + "::" + b;
    assert s[..|a|] == a;
    if !EndsInColon(a) {
      forall k {:trigger TopColons(s, k)} | 0 <= k < |a| ensures !TopColons(s, k) {
        assert s[k] == a[k] && s[..k] == a[..k] && !TopColons(a, k);
        if k + 1 < |a| { assert s[k + 1] == a[k + 1]; }
      }
      assert TopColons(s, |a|);
      ColonsUnique(s, |a|);
    }
  }

  lemma PartsStep(s: string)
    ensures var j := Colons(s, 0); Parts(s) == if j == |s| then [Trim(s)] else [Trim(s[..j])] + Parts(s[j + 2..])
  {
    hide Trim, Colons, TopColons;
  }

  lemma JoinStep(ps: seq<string>, sep: string)
    requires ps != []
    ensures Join(ps, sep) == if |ps| == 1 then ps[0] else ps[0] + sep + Join(ps[1..], sep)
  {}

  lemma {:induction false} PartsBack(parts: seq<string>)
    requires parts != [] && (forall i :: 0 <= i < |parts| ==> NamePart(parts[i]))
    requires forall i :: 0 <= i < |parts| - 1 ==> !EndsInColon(parts[i])
    ensures Parts(Join(parts, "::")) == parts
  {
    var a := parts[0];
    assert NamePart(a);
    TrimTight(a);
    hide Trim, Colons, Parts, Join, NamePart, EndsInColon;
    JoinStep(parts, "::");
    PartsStep(Join(parts, "::"));
    if |parts| == 1 {
      ColonsAfter(a, "");
    } else {
      PartsBack(parts[1..]);
      var b := Join(parts[1..], "::");
      ColonsAfter(a, b);
      var s := a + "::" + b;
      assert s[..|a|] == a && s[|a| + 2..] == b;
    }
  }

  lemma ColonsUnique(s: string, j: nat)
    requires j <= |s| && (j < |s| ==> TopColons(s, j)) && forall k {:trigger TopColons(s, k)} :: 0 <= k < j ==> !TopColons(s, k)
    ensures Colons(s, 0) == j
  {
    hide TopColons;
    var c := Colons(s, 0);
    assert c < |s| ==> TopColons(s, c);
  }

  lemma BaseParses(parts: seq<string>)
    requires NameOk(parts)
    ensures ParseBase(Join(parts, "::"), []) == Some(TypeNode(parts, None, []))
  {
    NameTight(parts);
    PartsBack(parts);
    assert forall i :: 0 <= i < |parts| ==> NamePart(parts[i]) && parts[i] != "";
  }

  // ---------------------------------------------------------------- argument lists

  /** The pieces of a list printed with a comma and a space: all but the first keep the space. */
  function Spaced(texts: seq<string>, pre: string): (r: seq<string>)
    ensures |r| == |texts|
  {
    if texts == [] then [] else [pre + texts[0]] + Spaced(texts[1..], " ")
  }

  lemma PreGood(pre: string, s: string)
    requires pre in {"", " "} && Balanced(s) && NoComma(s)
    ensures Balanced(pre + s) && NoComma(pre + s)
  {
    if pre == "" {
      assert pre + s == s;
    } else {
      FlatGood(pre);
      BalancedConcat(pre, s);
      FlatDepth(pre);
      forall k {:trigger TopComma(pre + s, k)} | 0 <= k < |pre + s| ensures !TopComma(pre + s, k) {
        if k > 0 { TopCommaIn(pre, s, k - 1); }
      }
      CommaUnique(pre + s, |pre + s|);
    }
  }

  lemma {:induction false} ListPieces(texts: seq<string>, pre: string)
    requires texts != [] && pre in {"", " "} && forall i :: 0 <= i < |texts| ==> Balanced(texts[i]) && NoComma(texts[i])
    ensures Pieces(pre + Join(texts, ", ")) == Spaced(texts, pre) && Balanced(pre + Join(texts, ", "))
  {
    hide Pieces, NoComma, Balanced;
    PreGood(pre, texts[0]);
    if |texts| == 1 {
      PiecesOf(pre + texts[0], "");
    } else {
      var rest := Join(texts[1..], ", ");
      ListPieces(texts[1..], " ");
      assert pre + Join(texts, ", ") == (pre + texts[0]) + "," + (" " + rest);
      PiecesOf(pre + texts[0], " " + rest);
      FlatComma();
      BalancedConcat(pre + texts[0], ",");
      BalancedConcat(pre + texts[0] + ",", " " + rest);
    }
  }

  lemma FlatComma()
    ensures Balanced(",")
  {
    assert ","[..0] == [];
  }

  /** Parsing the pieces of a printed list gives the list. */
  lemma {:induction false} ListParses(ts: seq<TypeNode>, pre: string, n: nat)
    requires pre in {"", " "}
    requires forall i :: 0 <= i < |ts| ==> Parse(Show(ts[i])) == Some(ts[i]) && Parse(" " + Show(ts[i])) == Some(ts[i])
    requires forall i :: 0 <= i < |ts| ==> |Spaced(Texts(ts), pre)[i]| < n
    ensures ParseAll(Spaced(Texts(ts), pre), n) == Some(ts)
  {
    hide Parse, Show;
    if ts != [] {
      var tokens := Spaced(Texts(ts), pre);
      assert Texts(ts)[1..] == Texts(ts[1..]);
      assert tokens[1..] == Spaced(Texts(ts[1..]), " ");
      forall i | 0 <= i < |ts[1..]| ensures |Spaced(Texts(ts[1..]), " ")[i]| < n {
        assert tokens[i + 1] == Spaced(Texts(ts[1..]), " ")[i];
      }
      ListParses(ts[1..], " ", n);
      assert tokens[0] == pre + Show(ts[0]);
      assert "" + Show(ts[0]) == Show(ts[0]);
      assert [ts[0]] + ts[1..] == ts;
    }
  }

  // ---------------------------------------------------------------- the round trip

  /** Text that ends in a closing bracket is no integer literal. */
  lemma NotInt(s: string)
    requires s != "" && s[|s| - 1] == '>'
    ensures !IsIntLiteral(s)
  {
    if IsIntLiteral(s) { IntFlat(s); }
  }

  lemma NoOpen(s: string)
    requires '<' !in s
    ensures LastOpen(s, |s|).None?
  {
    assert forall k {:trigger TopOpen(s, k)} :: 0 <= k < |s| ==> !TopOpen(s, k);
  }

  lemma PlainParses(parts: seq<string>)
    requires NameOk(parts) && '<' !in Join(parts, "::") && !IsIntLiteral(Join(parts, "::"))
    ensures
      var s := Join(parts, "::");
      Good(s) && Parse(s) == Some(TypeNode(parts, None, [])) && Parse(" " + s) == Some(TypeNode(parts, None, []))
  {
    hide NameOk, IsIntLiteral, NoComma, Join, LastOpen;
    var s := Join(parts, "::");
    NameTight(parts);
    TrimTight(s);
    BaseParses(parts);
    NoOpen(s);
  }

  lemma ClauseParses(parts: seq<string>, ts: seq<TypeNode>, inner: string)
    requires NameOk(parts) && Balanced(inner)
    requires (forall i :: 0 <= i < |Pieces(inner)| ==> |Pieces(inner)[i]| < |inner| + 1) && ParseAll(Pieces(inner), |inner| + 1) == Some(ts)
    ensures
      var s := Join(parts, "::") + "<" + inner + ">";
      Good(s) && Parse(s) == Some(TypeNode(parts, None, ts)) && Parse(" " + s) == Some(TypeNode(parts, None, ts))
  {
    hide Trim, Tight, LastOpen, AnglesOk, Pieces, ParseAll, ParseBase, IsIntLiteral, Balanced, NoComma, Angle, NameOk, Join, Parse;
    var base := Join(parts, "::");
    var s := base + "<" + inner + ">";
    NameTight(parts);
    ClauseTight(base, inner);
    TrimTight(s);
    TrimTight(base);
    NotInt(s);
    Clause(base, inner);
    BaseParses(parts);
    assert s[..|base|] == base && s[|base| + 1..|s| - 1] == inner;
    BalancedAngle(s);
    ParseClause(s, s, |base|, TypeNode(parts, None, []), ts);
    ParseClause(" " + s, s, |base|, TypeNode(parts, None, []), ts);
  }

  lemma ClauseTight(base: string, inner: string)
    requires Tight(base)
    ensures
      var s := base + "<" + inner + ">";
      base != "" && Tight(s) && s[0] == base[0] && s[|s| - 1] == '>'
  {}

  /** The parser's path for a name with a clause. */
  lemma ParseClause(raw: string, s: string, k: nat, base: TypeNode, ts: seq<TypeNode>)
    requires Trim(raw) == s && k < |s| - 1 && !IsIntLiteral(s) && AnglesOk(s) && Angle(s) == 0 && LastOpen(s, |s|) == Some(k)
    requires s[|s| - 1] == '>' && ParseBase(Trim(s[..k]), []) == Some(base)
    requires
      var args := s[k + 1..|s| - 1];
      Balanced(args) && (forall i :: 0 <= i < |Pieces(args)| ==> |Pieces(args)[i]| < |args| + 1) && ParseAll(Pieces(args), |args| + 1) == Some(ts)
    ensures Parse(raw) == Some(base.(templateArgs := ts))
  {
    hide Trim, LastOpen, AnglesOk, Pieces, ParseAll, ParseBase, IsIntLiteral, Balanced, Angle;
  }

  lemma BalancedAngle(s: string)
    requires Balanced(s)
    ensures Angle(s) == 0
  {}

  /** What is to be shown of a tree: its text is fit for an argument and parses back, with or without a space before it. */
  ghost predicate Returns(t: TypeNode) {
    Good(Show(t)) && Parse(Show(t)) == Some(t) && Parse(" " + Show(t)) == Some(t)
  }

  lemma NodeReturns(t: TypeNode)
    requires t.nonTypeValue.None? && NameOk(t.nameParts)
    requires t.templateArgs != [] && forall i :: 0 <= i < |t.templateArgs| ==> Returns(t.templateArgs[i])
    ensures Returns(t)
  {
    hide Parse, Good, NameOk, Pieces, ParseAll, Balanced, NoComma;
    var texts := Texts(t.templateArgs);
    var inner := Join(texts, ", ");
    forall i | 0 <= i < |texts| ensures Balanced(texts[i]) && NoComma(texts[i]) {
      assert Returns(t.templateArgs[i]);
      GoodMeans(Show(t.templateArgs[i]));
    }
    ListPieces(texts, "");
    assert "" + inner == inner;
    PiecesShort(inner);
    ListParses(t.templateArgs, "", |inner| + 1);
    ClauseParses(t.nameParts, t.templateArgs, inner);
    ShowClause(t, inner);
    assert t == TypeNode(t.nameParts, None, t.templateArgs);
  }

  lemma ShowClause(t: TypeNode, inner: string)
    requires t.nonTypeValue.None? && t.templateArgs != [] && inner == Join(Texts(t.templateArgs), ", ")
    ensures Show(t) == Join(t.nameParts, "::") + "<" + inner + ">"
  {
    assert Texts(t.templateArgs) == seq(|t.templateArgs|, i requires 0 <= i < |t.templateArgs| => Show(t.templateArgs[i]));
  }

  /** Parsing the printed text of a well-formed tree gives the tree. */
  lemma {:induction false} RoundTrip(t: TypeNode)
    requires WellFormed(t)
    ensures Parse(Show(t)) == Some(t) && Returns(t)
  {
    hide Parse, Good, NameOk, IntText;
    match t.nonTypeValue
    case Some(v) =>
      IntParses(t.nameParts[0], v);
      assert Show(t) == t.nameParts[0] + "" == t.nameParts[0];
      assert t == TypeNode([t.nameParts[0]], Some(v), []);
    case None =>
      if t.templateArgs == [] {
        PlainParses(t.nameParts);
        assert Show(t) == Join(t.nameParts, "::") + "" == Join(t.nameParts, "::");
        assert t == TypeNode(t.nameParts, None, []);
      } else {
        forall i | 0 <= i < |t.templateArgs| ensures Returns(t.templateArgs[i]) { RoundTrip(t.templateArgs[i]); }
        NodeReturns(t);
      }
  }

  lemma GoodMeans(s: string)
    requires Good(s)
    ensures Balanced(s) && NoComma(s)
  {}

  /** An empty argument list does not parse. */
  lemma EmptyClauseFails(parts: seq<string>)
    requires NameOk(parts)
    ensures Parse(Join(parts, "::") + "<>").None?
  {
    hide Trim, Tight, LastOpen, AnglesOk, ParseBase, IsIntLiteral, Balanced, NoComma, Angle, NameOk, Join, Comma;
    hide Parse, ParseAll, Pieces;
    var base := Join(parts, "::");
    var s := base + "<" + "" + ">";
    assert s == base + "<>";
    NameTight(parts);
    ClauseTight(base, "");
    TrimTight(s);
    NotInt(s);
    EmptyBalanced();
    Clause(base, "");
    assert s[|base| + 1..|s| - 1] == "";
    EmptyList();
    ClauseFails(s, |base|);
  }

  lemma EmptyList()
    ensures Pieces("") == [""] && ParseAll([""], 1).None?
  {
    EmptyTrim();
    assert Parse("").None?;
  }

  lemma ClauseFails(s: string, k: nat)
    requires Trim(s) == s && k < |s| - 1 && !IsIntLiteral(s) && LastOpen(s, |s|) == Some(k)
    requires
      var args := s[k + 1..|s| - 1];
      (forall i :: 0 <= i < |Pieces(args)| ==> |Pieces(args)[i]| < |args| + 1) && ParseAll(Pieces(args), |args| + 1).None?
    ensures Parse(s).None?
  {
    hide Trim, LastOpen, AnglesOk, Pieces, ParseAll, ParseBase, IsIntLiteral, Balanced, Angle;
  }

  lemma EmptyBalanced()
    ensures Balanced("")
  {}

  lemma EmptyTrim()
    ensures Trim("") == ""
  {}

  // ---------------------------------------------------------------- the scanning code

  method ScanDigits(s: string, start: nat) returns (end: nat, m: nat)
    requires start <= |s|
    ensures end == DigitsEnd(s, start) && m == Magnitude(s[start..end])
  {
    end, m := start, 0;
    assert s[start..start] == "";
    while end < |s| && IsDigit(s[end])
      invariant start <= end <= |s| && DigitsEnd(s, start) == DigitsEnd(s, end)
      invariant m == Magnitude(s[start..end])
    {
      assert s[start..end + 1][..end - start] == s[start..end];
      m := 10 * m + (s[end] - '0') as nat;
      end := end + 1;
    }
  }

  method ScanSuffix(s: string, start: nat) returns (end: nat)
    requires start <= |s|
    ensures end == SuffixEnd(s, start)
  {
    end := start;
    while end < |s| && IsSuffix(s[end])
      invariant start <= end <= |s| && SuffixEnd(s, start) == SuffixEnd(s, end)
    {
      end := end + 1;
    }
  }

  /** The literal test: where the digits of an integer literal end and what it denotes. */
  method ScanIntLiteral(s: string) returns (isInt: bool, end: nat, value: int)
    ensures isInt <==> IsIntLiteral(s)
    ensures isInt ==> end == DigitsEnd(s, SignEnd(s)) && value == LiteralValue(s)
  {
    hide Magnitude, DigitsEnd, SuffixEnd;
    var start := 0;
    if |s| > 0 && IsSign(s[0]) { start := 1; }
    var m;
    end, m := ScanDigits(s, start);
    value := m;
    if |s| > 0 && s[0] == '-' { value := -value; }
    if end <= start { return false, end, value; }
    var j := ScanSuffix(s, end);
    return j == |s|, end, value;
  }

  lemma AnglesNext(s: string, i: nat)
    requires i < |s|
    ensures Angle(s[..i + 1]) == Angle(s[..i]) + AngleOf(s[i])
    ensures AnglesOk(s[..i + 1]) <==> AnglesOk(s[..i]) && Angle(s[..i + 1]) >= 0
  {
    assert s[..i + 1][..i] == s[..i];
  }

  lemma {:induction false} AnglesPrefix(s: string, i: nat)
    requires AnglesOk(s) && i <= |s|
    ensures AnglesOk(s[..i])
  {
    if i < |s| {
      AnglesPrefix(s[..|s| - 1], i);
      assert s[..|s| - 1][..i] == s[..i];
    } else {
      assert s[..i] == s;
    }
  }

  /** The scan for the last clause. */
  method ScanAngles(s: string) returns (ok: bool, open: Option<nat>)
    ensures ok <==> AnglesOk(s) && Angle(s) == 0
    ensures ok ==> open == LastOpen(s, |s|)
  {
    var angle, i := 0, 0;
    open := None;
    assert s[..0] == "";
    while i < |s|
      invariant 0 <= i <= |s| && AnglesOk(s[..i]) && angle == Angle(s[..i]) >= 0 && open == LastOpen(s, i)
    {
      AnglesNext(s, i);
      var c := s[i];
      if c == '<' {
        if angle == 0 { open := Some(i); }
        angle := angle + 1;
      } else if c == '>' {
        if angle == 0 {
          assert !AnglesOk(s[..i + 1]);
          if AnglesOk(s) { AnglesPrefix(s, i + 1); }
          return false, open;
        }
        angle := angle - 1;
      }
      i := i + 1;
    }
    assert s[..i] == s;
    return angle == 0, open;
  }

  /** Double colons of a piece of text, seen from the whole. */
  lemma TopColonsIn(s: string, from: nat, k: nat)
    requires from <= |s| && Angle(s[..from]) == 0 && k < |s| - from
    ensures TopColons(s[from..], k) <==> TopColons(s, from + k)
  {
    assert s[..from + k] == s[..from] + s[from..][..k];
    DepthConcat(s[..from], s[from..][..k]);
  }

  lemma NextPart(s: string, from: nat, i: nat)
    requires from <= i < |s| && Angle(s[..from]) == 0 && TopColons(s, i)
    requires forall k {:trigger TopColons(s, k)} :: from <= k < i ==> !TopColons(s, k)
    ensures Parts(s[from..]) == [Trim(s[from..i])] + Parts(s[i + 2..]) && Angle(s[..i + 2]) == 0
  {
    hide Trim, Colons, TopColons;
    var t := s[from..];
    forall k {:trigger TopColons(t, k)} | 0 <= k <= i - from ensures TopColons(t, k) <==> k == i - from { TopColonsIn(s, from, k); }
    ColonsUnique(t, i - from);
    ColonsAt(s, i);
    assert t[..i - from] == s[from..i] && t[i - from + 2..] == s[i + 2..];
    AnglesNext(s, i);
    AnglesNext(s, i + 1);
  }

  lemma ColonsAt(s: string, i: nat)
    requires TopColons(s, i)
    ensures i + 1 < |s| && s[i] == ':' && s[i + 1] == ':' && Angle(s[..i]) == 0
  {}

  lemma LastPart(s: string, from: nat)
    requires from <= |s| && Angle(s[..from]) == 0
    requires forall k {:trigger TopColons(s, k)} :: from <= k < |s| ==> !TopColons(s, k)
    ensures Parts(s[from..]) == [Trim(s[from..])]
  {
    hide Trim, Colons, TopColons;
    var t := s[from..];
    forall k {:trigger TopColons(t, k)} | 0 <= k < |t| ensures !TopColons(t, k) { TopColonsIn(s, from, k); }
    ColonsUnique(t, |t|);
  }

  /** The split of the base on double colons. */
  method SplitParts(base: string) returns (parts: seq<string>)
    ensures parts == Parts(base)
  {
    hide Parts, Trim, Angle;
    var a, part, i := 0, "", 0;
    parts := [];
    ghost var from := 0;
    assert base[..0] == "" && base[0..] == base;
    assert Angle("") == 0 by { FlatDepth(""); }
    while i < |base|
      invariant 0 <= from <= i <= |base| && part == base[from..i]
      invariant a == Angle(base[..i]) && Angle(base[..from]) == 0
      invariant Parts(base) == parts + Parts(base[from..])
      invariant forall k {:trigger TopColons(base, k)} :: from <= k < i ==> !TopColons(base, k)
    {
      AnglesNext(base, i);
      if base[i] == '<' {
        a := a + 1;
      } else if base[i] == '>' {
        a := a - 1;
      }
      if a == 0 && i + 1 < |base| && base[i] == ':' && base[i + 1] == ':' {
        NextPart(base, from, i);
        var trimmed := TrimWs(part);
        parts := parts + [trimmed];
        part := "";
        from := i + 2;
        i := i + 2;
        continue;
      }
      part := part + [base[i]];
      i := i + 1;
    }
    LastPart(base, from);
    assert part == base[from..];
    var trimmed := TrimWs(part);
    parts := parts + [trimmed];
  }

  /** The base of a name: its parts, none of them empty. */
  method ParseParts(base: string) returns (r: Option<TypeNode>)
    ensures r == ParseBase(base, [])
  {
    if base == "" { return None; }
    var parts := SplitParts(base);
    var i := 0;
    while i < |parts|
      invariant 0 <= i <= |parts| && "" !in parts[..i]
    {
      if parts[i] == "" { return None; }
      i := i + 1;
    }
    assert parts[..i] == parts;
    return Some(TypeNode(parts, None, []));
  }

  /** The recursive descent. */
  method ParseDemangledType(raw: string) returns (r: Option<TypeNode>)
    ensures r == Parse(raw)
    decreases |raw|
  {
    hide Trim, LastOpen, AnglesOk, Pieces, ParseBase, IsIntLiteral, LiteralValue, Balanced, Angle;
    var s := TrimWs(raw);
    if |s| == 0 { return None; }
    var isInt, end, value := ScanIntLiteral(s);
    if isInt {
      if INT_MIN <= value <= INT_MAX { return Some(TypeNode([s[..end]], Some(value), [])); }
      return None;
    }
    var ok, open := ScanAngles(s);
    if !ok { return None; }
    if open.None? {
      r := ParseParts(s);
      return;
    }
    if s[|s| - 1] != '>' { return None; }
    var base := TrimWs(s[..open.value]);
    r := ParseParts(base);
    if r.None? { return None; }
    var argList := s[open.value + 1..|s| - 1];
    var balanced, tokens := SplitTopLevelArgs(argList);
    if !balanced { return None; }
    PiecesShort(argList);
    var args: seq<TypeNode> := [];
    var k := 0;
    assert tokens[0..] == tokens;
    assert ParseAll(tokens, |argList| + 1).Some? ==> args + ParseAll(tokens, |argList| + 1).value == ParseAll(tokens, |argList| + 1).value;
    while k < |tokens|
      invariant 0 <= k <= |tokens| && tokens == Pieces(argList)
      invariant ParseAll(tokens, |argList| + 1) == match ParseAll(tokens[k..], |argList| + 1) case Some(rest) => Some(args + rest) case None => None
    {
      var arg := ParseDemangledType(tokens[k]);
      assert tokens[k..][0] == tokens[k] && tokens[k..][1..] == tokens[k + 1..];
      if arg.None? { return None; }
      ArgsAssoc(args, arg.value, tokens[k + 1..], |argList| + 1);
      args := args + [arg.value];
      k := k + 1;
    }
    assert tokens[k..] == [];
    assert args + [] == args;
    r := Some(r.value.(templateArgs := args));
  }

  lemma ArgsAssoc(args: seq<TypeNode>, arg: TypeNode, rest: seq<string>, n: nat)
    requires forall i :: 0 <= i < |rest| ==> |rest[i]| < n
    ensures ParseAll(rest, n).Some? ==> args + ([arg] + ParseAll(rest, n).value) == args + [arg] + ParseAll(rest, n).value
  {}

  /** Recovery swaps in the parts and arguments parsed from the name if there are arguments, and otherwise leaves the node alone. */
  method RecoverTemplateArgs(name: string, node: TypeNode) returns (recovered: bool, r: TypeNode)
    ensures recovered <==> '<' in name && Parse(name).Some? && Parse(name).value.templateArgs != []
    ensures recovered ==> r.nonTypeValue == node.nonTypeValue && r.nameParts == Parse(name).value.nameParts && r.templateArgs == Parse(name).value.templateArgs
    ensures !recovered ==> r == node
  {
    hide Parse;
    if '<' !in name { return false, node; }
    var parsed := ParseDemangledType(name);
    if parsed.None? || parsed.value.templateArgs == [] { return false, node; }
    return true, node.(nameParts := parsed.value.nameParts, templateArgs := parsed.value.templateArgs);
  }
}
