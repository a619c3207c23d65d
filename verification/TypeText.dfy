/** Scanning demangled type text: brackets, trimming, and splitting on commas and double colons outside brackets. */
module TypeText {

  predicate IsSpace(c: char) { c in {' ', '\t', '\n', '\r', '\U{0B}', '\U{0C}'} }

  predicate IsDigit(c: char) { '0' <= c <= '9' }

  // ---------------------------------------------------------------- depth

  function AngleOf(c: char): int { if c == '<' then 1 else if c == '>' then -1 else 0 }

  function ParenOf(c: char): int { if c == '(' then 1 else if c == ')' then -1 else 0 }

  function Angle(s: string): int { if s == [] then 0 else Angle(s[..|s| - 1]) + AngleOf(s[|s| - 1]) }

  function Paren(s: string): int { if s == [] then 0 else Paren(s[..|s| - 1]) + ParenOf(s[|s| - 1]) }

  /** No bracket is closed before it is opened. */
  predicate NeverBelow(s: string) {
    s != [] ==> NeverBelow(s[..|s| - 1]) && Angle(s) >= 0 && Paren(s) >= 0
  }

  predicate Balanced(s: string) { NeverBelow(s) && Angle(s) == 0 && Paren(s) == 0 }

  lemma {:induction false} DepthConcat(a: string, b: string)
    ensures Angle(a + b) == Angle(a) + Angle(b) && Paren(a + b) == Paren(a) + Paren(b)
  {
    if b == [] {
      assert a + b == a;
    } else {
      assert (a + b)[..|a + b| - 1] == a + b[..|b| - 1];
      DepthConcat(a, b[..|b| - 1]);
    }
  }

  lemma {:induction false} NeverBelowConcat(a: string, b: string)
    requires NeverBelow(a) && NeverBelow(b) && Angle(a) >= 0 && Paren(a) >= 0
    ensures NeverBelow(a + b)
  {
    if b == [] {
      assert a + b == a;
    } else {
      assert (a + b)[..|a + b| - 1] == a + b[..|b| - 1];
      NeverBelowConcat(a, b[..|b| - 1]);
      DepthConcat(a, b);
    }
  }

  lemma {:induction false} NeverBelowPrefix(s: string, i: nat)
    requires NeverBelow(s) && i <= |s|
    ensures NeverBelow(s[..i]) && Angle(s[..i]) >= 0 && Paren(s[..i]) >= 0
  {
    if i < |s| {
      NeverBelowPrefix(s[..|s| - 1], i);
      assert s[..|s| - 1][..i] == s[..i];
    } else {
      assert s[..i] == s;
    }
  }

  /** Cutting balanced text where both depths are zero leaves balanced text on both sides. */
  lemma {:induction false} BalancedRest(a: string, b: string)
    requires NeverBelow(a + b) && Angle(a) == 0 && Paren(a) == 0
    ensures NeverBelow(b)
  {
    if b != [] {
      assert (a + b)[..|a + b| - 1] == a + b[..|b| - 1];
      BalancedRest(a, b[..|b| - 1]);
      DepthConcat(a, b);
    }
  }

  // ---------------------------------------------------------------- trimming

  function TrimLeft(s: string): (r: string)
    ensures |r| <= |s|
  {
    if s != [] && IsSpace(s[0]) then TrimLeft(s[1..]) else s
  }

  function TrimRight(s: string): (r: string)
    ensures |r| <= |s|
  {
    if s != [] && IsSpace(s[|s| - 1]) then TrimRight(s[..|s| - 1]) else s
  }

  function Trim(s: string): (r: string)
    ensures |r| <= |s|
  {
    TrimRight(TrimLeft(s))
  }

  predicate Tight(s: string) { s != [] && !IsSpace(s[0]) && !IsSpace(s[|s| - 1]) }

  lemma TrimTight(s: string)
    requires Tight(s)
    ensures Trim(s) == s && Trim(" " + s) == s
  {
    assert (" " + s)[1..] == s;
  }

  /** The two scans with a moving start and end. */
  method TrimWs(s: string) returns (r: string)
    ensures r == Trim(s)
  {
    var b, e := 0, |s|;
    assert s[0..] == s;
    while b < e && IsSpace(s[b])
      invariant 0 <= b <= e == |s| && TrimLeft(s) == TrimLeft(s[b..])
    {
      assert s[b..][1..] == s[b + 1..];
      b := b + 1;
    }
    assert TrimLeft(s) == s[b..];
    assert s[b..e] == s[b..];
    while e > b && IsSpace(s[e - 1])
      invariant b <= e <= |s| && TrimRight(s[b..]) == TrimRight(s[b..e])
    {
      assert s[b..e][..e - b - 1] == s[b..e - 1];
      e := e - 1;
    }
    r := s[b..e];
  }

  // ---------------------------------------------------------------- commas

  /** A comma outside all brackets. */
  predicate TopComma(s: string, k: nat) {
    k < |s| && s[k] == ',' && Angle(s[..k]) == 0 && Paren(s[..k]) == 0
  }

  /** Position of the first one, from i on; the length if there is none. */
  function Comma(s: string, i: nat): (j: nat)
    requires i <= |s|
    ensures i <= j <= |s|
    ensures j < |s| ==> TopComma(s, j)
    ensures forall k {:trigger TopComma(s, k)} :: i <= k < j ==> !TopComma(s, k)
    decreases |s| - i
  {
    if i == |s| || TopComma(s, i) then i else Comma(s, i + 1)
  }

  predicate NoComma(s: string) { Comma(s, 0) == |s| }

  /** The pieces between commas outside brackets. */
  function Pieces(s: string): (ps: seq<string>)
    ensures |ps| >= 1
    decreases |s|
  {
    var j := Comma(s, 0);
    if j == |s| then [s] else [s[..j]] + Pieces(s[j + 1..])
  }

  function Join(ps: seq<string>, sep: string): string {
    if ps == [] then "" else if |ps| == 1 then ps[0] else ps[0] + sep + Join(ps[1..], sep)
  }

  lemma CommaUnique(s: string, j: nat)
    requires j <= |s| && (j < |s| ==> TopComma(s, j)) && forall k {:trigger TopComma(s, k)} :: 0 <= k < j ==> !TopComma(s, k)
    ensures Comma(s, 0) == j
  {
    hide TopComma;
    var c := Comma(s, 0);
    assert c < |s| ==> TopComma(s, c);
  }

  /** Commas of a piece of text, seen from the whole. */
  lemma TopCommaIn(a: string, b: string, k: nat)
    requires k < |b| && Angle(a) == 0 && Paren(a) == 0
    ensures TopComma(b, k) <==> TopComma(a + b, |a| + k)
  {
    assert (a + b)[..|a| + k] == a + b[..k];
    DepthConcat(a, b[..k]);
  }

  lemma TopCommaBefore(a: string, b: string, k: nat)
    requires k < |a|
    ensures TopComma(a, k) <==> TopComma(a + b, k)
  {
    assert (a + b)[..k] == a[..k];
  }

  /** The first comma outside brackets comes right after balanced text without one. */
  lemma CommaAfter(a: string, b: string)
    requires Balanced(a) && NoComma(a)
    ensures Comma(a + "," + b, 0) == |a|
  {
    var s := a + "," + b;
    assert s == a + ("," + b);
    forall k {:trigger TopComma(s, k)} | 0 <= k < |a| ensures !TopComma(s, k) {
      TopCommaBefore(a, "," + b, k);
    }
    assert TopComma(s, |a|) by { assert s[..|a|] == a && s[|a|] == ','; }
    CommaUnique(s, |a|);
  }

  lemma PiecesOf(a: string, b: string)
    requires Balanced(a) && NoComma(a)
    ensures Pieces(a + "," + b) == [a] + Pieces(b) && Pieces(a) == [a]
  {
    CommaAfter(a, b);
    var s := a + "," + b;
    assert s[..|a|] == a && s[|a| + 1..] == b;
  }

  /** The pieces rejoin to the text. */
  lemma {:induction false} PiecesRejoin(s: string)
    ensures Join(Pieces(s), ",") == s
    decreases |s|
  {
    hide Comma;
    var j := Comma(s, 0);
    if j < |s| {
      var a, b := s[..j], s[j + 1..];
      PiecesRejoin(b);
      assert s[j] == ',';
      assert s == a + "," + b;
      assert Pieces(s)[1..] == Pieces(b);
    }
  }

  /** No piece holds a comma outside brackets, and the pieces of balanced text are balanced. */
  lemma {:induction false} PiecesBalanced(s: string, i: nat)
    requires i < |Pieces(s)|
    ensures NoComma(Pieces(s)[i]) && (Balanced(s) ==> Balanced(Pieces(s)[i]))
    decreases |s|
  {
    hide Comma, NoComma, Balanced;
    var j := Comma(s, 0);
    if j == |s| {
      PrefixNoComma(s, j);
      assert s[..j] == s;
    } else {
      var a, b := s[..j], s[j + 1..];
      PrefixNoComma(s, j);
      BalancedCut(s, j);
      if i > 0 {
        PiecesBalanced(b, i - 1);
        assert Pieces(s)[i] == Pieces(b)[i - 1];
      }
    }
  }

  lemma BalancedCut(s: string, j: nat)
    requires TopComma(s, j)
    ensures Balanced(s) ==> Balanced(s[..j]) && Balanced(s[j + 1..])
  {
    if Balanced(s) {
      var a, b := s[..j], s[j + 1..];
      NeverBelowPrefix(s, j);
      assert s == (a + ",") + b;
      DepthConcat(a, ",");
      CommaFlat();
      DepthConcat(a + ",", b);
      BalancedRest(a + ",", b);
    }
  }

  lemma CommaFlat()
    ensures Angle(",") == 0 && Paren(",") == 0
  {
    assert ","[..0] == [];
  }

  lemma PrefixNoComma(s: string, j: nat)
    requires j == Comma(s, 0)
    ensures NoComma(s[..j])
  {
    assert s == s[..j] + s[j..];
    forall k {:trigger TopComma(s[..j], k)} | 0 <= k < j ensures !TopComma(s[..j], k) {
      TopCommaBefore(s[..j], s[j..], k);
    }
    CommaUnique(s[..j], j);
  }

  // ---------------------------------------------------------------- the scan

  /** The scan at position i, the current piece begun at `from`. */
  ghost predicate Scanning(s: string, from: nat, i: nat, angle: int, paren: int, out: seq<string>) {
    && from <= i <= |s|
    && NeverBelow(s[..i]) && angle == Angle(s[..i]) >= 0 && paren == Paren(s[..i]) >= 0
    && Angle(s[..from]) == 0 && Paren(s[..from]) == 0
    && Pieces(s) == out + Pieces(s[from..])
    && forall k {:trigger TopComma(s, k)} :: from <= k < i ==> !TopComma(s, k)
  }

  lemma DepthNext(s: string, i: nat)
    requires i < |s|
    ensures Angle(s[..i + 1]) == Angle(s[..i]) + AngleOf(s[i]) && Paren(s[..i + 1]) == Paren(s[..i]) + ParenOf(s[i])
    ensures NeverBelow(s[..i + 1]) <==> NeverBelow(s[..i]) && Angle(s[..i + 1]) >= 0 && Paren(s[..i + 1]) >= 0
  {
    assert s[..i + 1][..i] == s[..i];
  }

  lemma ScanStart(s: string)
    ensures Scanning(s, 0, 0, 0, 0, [])
  {
    assert s[..0] == "" && s[0..] == s;
  }

  lemma ScanOn(s: string, from: nat, i: nat, angle: int, paren: int, out: seq<string>)
    requires Scanning(s, from, i, angle, paren, out) && i < |s| && !TopComma(s, i)
    ensures angle + AngleOf(s[i]) >= 0 && paren + ParenOf(s[i]) >= 0 ==> Scanning(s, from, i + 1, angle + AngleOf(s[i]), paren + ParenOf(s[i]), out)
    ensures angle + AngleOf(s[i]) < 0 || paren + ParenOf(s[i]) < 0 ==> !Balanced(s)
  {
    DepthNext(s, i);
    hide Angle, Paren, Pieces, TopComma;
    if angle + AngleOf(s[i]) < 0 || paren + ParenOf(s[i]) < 0 { NotBalanced(s, i + 1); }
  }

  lemma ScanComma(s: string, from: nat, i: nat, angle: int, paren: int, out: seq<string>)
    requires Scanning(s, from, i, angle, paren, out) && TopComma(s, i)
    ensures Scanning(s, i + 1, i + 1, angle, paren, out + [s[from..i]])
  {
    DepthNext(s, i);
    NextPiece(s, from, i);
    hide Angle, Paren, Pieces, TopComma;
  }

  lemma ScanEnd(s: string, from: nat, angle: int, paren: int, out: seq<string>)
    requires Scanning(s, from, |s|, angle, paren, out)
    ensures Balanced(s) <==> angle == 0 && paren == 0
    ensures Pieces(s) == out + [s[from..]]
  {
    assert s[..|s|] == s;
    LastPiece(s, from);
  }

  /** The scan with two depth counters and the current piece. */
  method SplitTopLevelArgs(s: string) returns (ok: bool, out: seq<string>)
    ensures ok <==> Balanced(s)
    ensures ok ==> out == Pieces(s)
  {
    hide Scanning, Angle, Paren, Pieces, Balanced, NeverBelow;
    var angle, paren, cur, i := 0, 0, "", 0;
    out := [];
    ghost var from := 0;
    ScanStart(s);
    while i < |s|
      invariant 0 <= from <= i <= |s| && cur == s[from..i]
      invariant Scanning(s, from, i, angle, paren, out)
    {
      var c := s[i];
      ScanDepth(s, from, i, angle, paren, out);
      if !TopComma(s, i) { ScanOn(s, from, i, angle, paren, out); }
      if c == '<' {
        angle := angle + 1;
      } else if c == '>' {
        if angle == 0 { return false, out; }
        angle := angle - 1;
      } else if c == '(' {
        paren := paren + 1;
      } else if c == ')' {
        if paren == 0 { return false, out; }
        paren := paren - 1;
      }
      if c == ',' && angle == 0 && paren == 0 {
        ScanComma(s, from, i, angle, paren, out);
        out := out + [cur];
        cur := "";
        from := i + 1;
        i := i + 1;
        continue;
      }
      cur := cur + [c];
      i := i + 1;
    }
    ScanEnd(s, from, angle, paren, out);
    if angle != 0 || paren != 0 { return false, out; }
    assert cur == s[from..];
    out := out + [cur];
    return true, out;
  }

  lemma ScanDepth(s: string, from: nat, i: nat, angle: int, paren: int, out: seq<string>)
    requires Scanning(s, from, i, angle, paren, out) && i < |s|
    ensures angle >= 0 && paren >= 0 && (TopComma(s, i) <==> s[i] == ',' && angle == 0 && paren == 0)
  {}

  lemma NotBalanced(s: string, i: nat)
    requires i <= |s| && (Angle(s[..i]) < 0 || Paren(s[..i]) < 0)
    ensures !Balanced(s)
  {
    if NeverBelow(s) { NeverBelowPrefix(s, i); }
  }

  lemma NextPiece(s: string, from: nat, i: nat)
    requires from <= i < |s| && Angle(s[..from]) == 0 && Paren(s[..from]) == 0 && TopComma(s, i)
    requires forall k {:trigger TopComma(s, k)} :: from <= k < i ==> !TopComma(s, k)
    ensures Pieces(s[from..]) == [s[from..i]] + Pieces(s[i + 1..])
  {
    hide Angle, Paren, Comma, TopComma;
    var t := s[from..];
    assert s == s[..from] + t;
    forall k {:trigger TopComma(t, k)} | 0 <= k <= i - from ensures TopComma(t, k) <==> k == i - from {
      TopCommaIn(s[..from], t, k);
    }
    CommaUnique(t, i - from);
    assert t[..i - from] == s[from..i] && t[i - from + 1..] == s[i + 1..];
  }

  lemma LastPiece(s: string, from: nat)
    requires from <= |s| && Angle(s[..from]) == 0 && Paren(s[..from]) == 0
    requires forall k {:trigger TopComma(s, k)} :: from <= k < |s| ==> !TopComma(s, k)
    ensures Pieces(s[from..]) == [s[from..]]
  {
    var t := s[from..];
    assert s == s[..from] + t;
    forall k {:trigger TopComma(t, k)} | 0 <= k < |t| ensures !TopComma(t, k) {
      TopCommaIn(s[..from], t, k);
    }
    CommaUnique(t, |t|);
  }
}
