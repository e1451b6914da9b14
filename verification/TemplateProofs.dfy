/** Rendering amounts to one simultaneous substitution, and a valid set of
    variables leaves no placeholder. */
module TemplateProofs {
  import opened Tables
  import opened Template

  // ------------------------------------------------------------------
  // Templates as pieces
  // ------------------------------------------------------------------

  datatype Piece = Text(s: string) | Single(name: string) | Double(name: string)

  predicate BraceFree(s: string) {
    '{' !in s && '}' !in s
  }

  function Source(p: Piece): string {
    match p
    case Text(s) => s
    case Single(name) => SinglePattern(name)
    case Double(name) => DoublePattern(name)
  }

  function Flatten(ps: seq<Piece>): string {
    if ps == [] then "" else Source(ps[0]) + Flatten(ps[1..])
  }

  predicate PlainPiece(p: Piece) {
    BraceFree(if p.Text? then p.s else p.name)
  }

  predicate Plain(ps: seq<Piece>) {
    forall p <- ps :: PlainPiece(p)
  }

  function Lookup(variables: seq<Variable>, name: string): (v: Option<string>)
    ensures v.Some? ==> Variable(name, v.value) in variables
    ensures v.None? <==> name !in KeysOf(variables)
  {
    if variables == [] then None
    else if variables[0].key == name then Some(variables[0].value)
    else Lookup(variables[1..], name)
  }

  function SubstitutePiece(p: Piece, variables: seq<Variable>): Piece {
    if p.Text? then p
    else
      match Lookup(variables, p.name)
      case None => p
      case Some(v) => Text(v)
  }

  /** Every placeholder with a value replaced at once. */
  function Substitute(ps: seq<Piece>, variables: seq<Variable>): (r: seq<Piece>)
    ensures |r| == |ps| && forall i :: 0 <= i < |ps| ==> r[i] == SubstitutePiece(ps[i], variables)
  {
    if ps == [] then [] else [SubstitutePiece(ps[0], variables)] + Substitute(ps[1..], variables)
  }

  // ------------------------------------------------------------------
  // Dollar patterns
  // ------------------------------------------------------------------

  predicate HasDollarPattern(v: string) {
    exists i :: 0 <= i < |v| - 1 && v[i] == '$' && v[i + 1] in "$&`'"
  }

  lemma {:induction false} ExpandPlain(v: string, matched: string, before: string, after: string)
    requires !HasDollarPattern(v)
    ensures Expand(v, matched, before, after) == v
    decreases |v|
  {
    if v == "" {
    } else {
      forall i | 0 <= i < |v[1..]| - 1
        ensures !(v[1..][i] == '$' && IsDollarCode(v[1..][i + 1]))
      {
        assert !(v[i + 1] == '$' && IsDollarCode(v[i + 1 + 1]));
      }
      assert |v| >= 2 && v[0] == '$' ==> !IsDollarCode(v[0 + 1]);
      ExpandPlain(v[1..], matched, before, after);
      assert v == [v[0]] + v[1..];
    }
  }

  lemma {:induction false} ExpandShrinks(v: string)
    ensures |Expand(v, "", "", "")| <= |v|
    ensures HasDollarPattern(v) ==> |Expand(v, "", "", "")| < |v|
    decreases |v|
  {
    if v == "" {
    } else if |v| >= 2 && v[0] == '$' && IsDollarCode(v[1]) {
      ExpandShrinks(v[2..]);
    } else {
      ExpandShrinks(v[1..]);
      if HasDollarPattern(v) {
        var i :| 0 <= i < |v| - 1 && v[i] == '$' && IsDollarCode(v[i + 1]);
        assert v[1..][i - 1] == '$' && IsDollarCode(v[1..][i - 1 + 1]);
      }
    }
  }

  /** A value is inserted as it is, wherever the match, exactly when it has no dollar pattern. */
  lemma InsertedLiterallyIff(v: string)
    ensures !HasDollarPattern(v) <==> forall matched, before, after :: Expand(v, matched, before, after) == v
  {
    if HasDollarPattern(v) {
      ExpandShrinks(v);
    } else {
      forall matched, before, after
        ensures Expand(v, matched, before, after) == v
      {
        ExpandPlain(v, matched, before, after);
      }
    }
  }

  /** Text without a dollar sign is kept. */
  lemma {:induction false} ExpandAppend(a: string, b: string, matched: string, before: string, after: string)
    requires '$' !in a
    ensures Expand(a + b, matched, before, after) == a + Expand(b, matched, before, after)
  {
    if a == "" {
      assert a + b == b;
    } else {
      assert (a + b)[0] == a[0] && (a + b)[1..] == a[1..] + b;
      ExpandAppend(a[1..], b, matched, before, after);
      assert [a[0]] + a[1..] == a;
    }
  }

  /** What a dollar sign stands for, with the character after it: a dollar, the match, the text before it or the
      text after it; before any other character it stands for itself. */
  lemma DollarStandsFor(c: char, rest: string, matched: string, before: string, after: string)
    ensures Expand(['$', c] + rest, matched, before, after) ==
            match c
            case '$' => "$" + Expand(rest, matched, before, after)
            case '&' => matched + Expand(rest, matched, before, after)
            case '`' => before + Expand(rest, matched, before, after)
            case '\'' => after + Expand(rest, matched, before, after)
            case _ => "$" + Expand([c] + rest, matched, before, after)
  {
    var v := ['$', c] + rest;
    assert v[2..] == rest && v[1..] == [c] + rest;
  }

  // ------------------------------------------------------------------
  // One replacement
  // ------------------------------------------------------------------

  /** Global replacement by a literal value. */
  function ReplaceAll(s: string, pattern: string, v: string): string
    requires pattern != ""
  {
    if s == "" then ""
    else if StartsWith(s, pattern) then v + ReplaceAll(s[|pattern|..], pattern, v)
    else [s[0]] + ReplaceAll(s[1..], pattern, v)
  }

  lemma Suffixes(s: string, i: nat, k: nat)
    requires i + k <= |s|
    ensures s[i..][k..] == s[i + k..]
  {
  }

  lemma MatchIsReplaced(s: string, i: nat, pattern: string, v: string)
    requires i < |s| && pattern != "" && !HasDollarPattern(v) && StartsWith(s[i..], pattern)
    ensures ReplaceFrom(s, i, pattern, v) == v + ReplaceFrom(s, i + |pattern|, pattern, v)
  {
    ExpandPlain(v, pattern, s[..i], s[i + |pattern|..]);
  }

  lemma {:induction false} ReplaceIsLiteral(s: string, i: nat, pattern: string, v: string)
    requires i <= |s| && pattern != "" && !HasDollarPattern(v)
    ensures ReplaceFrom(s, i, pattern, v) == ReplaceAll(s[i..], pattern, v)
    decreases |s| - i
  {
    if i == |s| {
    } else if StartsWith(s[i..], pattern) {
      MatchIsReplaced(s, i, pattern, v);
      Suffixes(s, i, |pattern|);
      ReplaceIsLiteral(s, i + |pattern|, pattern, v);
    } else {
      Suffixes(s, i, 1);
      ReplaceIsLiteral(s, i + 1, pattern, v);
    }
  }

  lemma FirstDiffers(s: string, pattern: string)
    requires s != "" && pattern != "" && s[0] != pattern[0]
    ensures !StartsWith(s, pattern)
  {
  }

  /** Text without an opening brace is passed over. */
  lemma {:induction false} SkipText(t: string, s: string, pattern: string, v: string)
    requires '{' !in t && pattern != "" && pattern[0] == '{'
    ensures ReplaceAll(t + s, pattern, v) == t + ReplaceAll(s, pattern, v)
    decreases |t|
  {
    if t == "" {
      assert t + s == s;
    } else {
      assert (t + s)[0] == t[0] && (t + s)[1..] == t[1..] + s;
      assert t[0] in t;
      FirstDiffers(t + s, pattern);
      SkipText(t[1..], s, pattern, v);
    }
  }

  /** A brace-free name is determined by what comes before the closing brace. */
  lemma {:induction false} NameEnds(j: string, x: string, k: string, y: string)
    requires BraceFree(j) && BraceFree(k) && j + "}" + x == k + "}" + y
    ensures j == k
    decreases |j|
  {
    var l, r := j + "}" + x, k + "}" + y;
    assert l[0] == (if j == "" then '}' else j[0]) && r[0] == (if k == "" then '}' else k[0]);
    assert (j != "" ==> j[0] in j) && (k != "" ==> k[0] in k);
    if j != "" && k != "" {
      assert l[1..] == j[1..] + "}" + x && r[1..] == k[1..] + "}" + y;
      NameEnds(j[1..], x, k[1..], y);
    }
  }

  lemma DoubleMatchesIff(j: string, s: string, k: string)
    requires BraceFree(j) && BraceFree(k)
    ensures StartsWith(DoublePattern(j) + s, DoublePattern(k)) <==> j == k
  {
    var l, p := DoublePattern(j) + s, DoublePattern(k);
    if StartsWith(l, p) {
      assert l == p + l[|p|..];
      assert l[2..] == j + "}" + ("}" + s) && l[2..] == k + "}" + ("}" + l[|p|..]);
      NameEnds(j, "}" + s, k, "}" + l[|p|..]);
    }
  }

  lemma SingleMatchesIff(j: string, s: string, k: string)
    requires BraceFree(j) && BraceFree(k)
    ensures StartsWith(SinglePattern(j) + s, SinglePattern(k)) <==> j == k
  {
    var l, p := SinglePattern(j) + s, SinglePattern(k);
    if StartsWith(l, p) {
      assert l == p + l[|p|..];
      assert l[1..] == j + "}" + s && l[1..] == k + "}" + l[|p|..];
      NameEnds(j, s, k, l[|p|..]);
    }
  }

  /** The second character of a string that does not start like the pattern decides. */
  lemma SecondDiffers(s: string, pattern: string)
    requires |s| >= 2 && |pattern| >= 2 && s[1] != pattern[1]
    ensures !StartsWith(s, pattern)
  {
  }

  /** An opening brace that starts no match is passed over, with the brace-free rest of its placeholder. */
  lemma SkipPlaceholder(t: string, s: string, pattern: string, v: string)
    requires '{' !in t && pattern != "" && pattern[0] == '{' && !StartsWith("{" + t + s, pattern)
    ensures ReplaceAll("{" + t + s, pattern, v) == "{" + t + ReplaceAll(s, pattern, v)
  {
    assert ("{" + t + s)[1..] == t + s;
    SkipText(t, s, pattern, v);
    assert "{" + t + ReplaceAll(s, pattern, v) == "{" + (t + ReplaceAll(s, pattern, v));
  }

  /** What replacing one pattern does to a placeholder. */
  lemma DoubleOnPiece(p: Piece, s: string, k: string, v: string)
    requires PlainPiece(p) && BraceFree(k)
    ensures ReplaceAll(Source(p) + s, DoublePattern(k), v) ==
            (if p == Double(k) then v else Source(p)) + ReplaceAll(s, DoublePattern(k), v)
  {
    var pattern := DoublePattern(k);
    match p
    case Text(t) =>
      SkipText(t, s, pattern, v);
    case Single(j) =>
      var t := j + "}";
      assert Source(p) + s == "{" + t + s && Source(p) == "{" + t;
      assert ("{" + t + s)[1] == t[0];
      assert t[0] in t;
      SecondDiffers("{" + t + s, pattern);
      SkipPlaceholder(t, s, pattern, v);
    case Double(j) =>
      DoubleMatchesIff(j, s, k);
      if j == k {
        assert (pattern + s)[|pattern|..] == s;
      } else {
        var t := j + "}}";
        assert Source(p) + s == "{" + ("{" + t + s) && Source(p) == "{" + ("{" + t);
        assert ("{" + ("{" + t + s))[1..] == "{" + t + s;
        assert t[0] in t;
        SecondDiffers("{" + t + s, pattern);
        SkipPlaceholder(t, s, pattern, v);
      }
  }

  lemma SingleOnPiece(p: Piece, s: string, k: string, v: string)
    requires PlainPiece(p) && BraceFree(k) && p != Double(k)
    ensures ReplaceAll(Source(p) + s, SinglePattern(k), v) ==
            (if p == Single(k) then v else Source(p)) + ReplaceAll(s, SinglePattern(k), v)
  {
    var pattern := SinglePattern(k);
    match p
    case Text(t) =>
      SkipText(t, s, pattern, v);
    case Single(j) =>
      SingleMatchesIff(j, s, k);
      if j == k {
        assert (pattern + s)[|pattern|..] == s;
      } else {
        var t := j + "}";
        assert Source(p) + s == "{" + t + s && Source(p) == "{" + t;
        SkipPlaceholder(t, s, pattern, v);
      }
    case Double(j) =>
      OtherDoubleKept(j, s, k, v);
  }

  lemma OtherDoubleKept(j: string, s: string, k: string, v: string)
    requires BraceFree(j) && BraceFree(k) && j != k
    ensures ReplaceAll(DoublePattern(j) + s, SinglePattern(k), v) ==
            DoublePattern(j) + ReplaceAll(s, SinglePattern(k), v)
  {
    var pattern, t := SinglePattern(k), j + "}}";
    var inner := "{" + t + s;
    assert DoublePattern(j) + s == "{" + inner && (("{" + inner)[1..] == inner);
    assert pattern[1] == (if k == "" then '}' else k[0]) && (k != "" ==> k[0] in k);
    SecondDiffers("{" + inner, pattern);
    assert inner == SinglePattern(j) + ("}" + s);
    SingleMatchesIff(j, "}" + s, k);
    SkipPlaceholder(t, s, pattern, v);
    assert DoublePattern(j) + ReplaceAll(s, pattern, v) == "{" + ("{" + t + ReplaceAll(s, pattern, v));
  }

  function WithoutDouble(ps: seq<Piece>, k: string, v: string): (r: seq<Piece>)
    ensures |r| == |ps| && forall i :: 0 <= i < |ps| ==> r[i] == if ps[i] == Double(k) then Text(v) else ps[i]
  {
    if ps == [] then [] else [if ps[0] == Double(k) then Text(v) else ps[0]] + WithoutDouble(ps[1..], k, v)
  }

  lemma {:induction false} DoublePass(ps: seq<Piece>, k: string, v: string)
    requires Plain(ps) && BraceFree(k)
    ensures ReplaceAll(Flatten(ps), DoublePattern(k), v) == Flatten(WithoutDouble(ps, k, v))
    decreases |ps|
  {
    if ps != [] {
      DoublePass(ps[1..], k, v);
      DoubleOnPiece(ps[0], Flatten(ps[1..]), k, v);
      assert WithoutDouble(ps, k, v)[1..] == WithoutDouble(ps[1..], k, v);
    }
  }

  lemma {:induction false} SinglePass(ps: seq<Piece>, k: string, v: string)
    requires Plain(ps) && BraceFree(k) && Double(k) !in ps
    ensures ReplaceAll(Flatten(ps), SinglePattern(k), v) == Flatten(Substitute(ps, [Variable(k, v)]))
    decreases |ps|
  {
    if ps != [] {
      SinglePass(ps[1..], k, v);
      assert ps[0] in ps;
      SingleOnPiece(ps[0], Flatten(ps[1..]), k, v);
      assert Substitute(ps, [Variable(k, v)])[1..] == Substitute(ps[1..], [Variable(k, v)]);
    }
  }

  lemma ReplacedAll(s: string, pattern: string, v: string)
    requires pattern != "" && !HasDollarPattern(v)
    ensures ReplaceFrom(s, 0, pattern, v) == ReplaceAll(s, pattern, v)
  {
    ReplaceIsLiteral(s, 0, pattern, v);
    assert s[0..] == s;
  }

  /** Both replacements of one variable together. */
  lemma OneVariable(ps: seq<Piece>, x: Variable)
    requires Plain(ps) && BraceFree(x.key) && BraceFree(x.value) && !HasDollarPattern(x.value)
    ensures
      var doubled := ReplaceFrom(Flatten(ps), 0, DoublePattern(x.key), x.value);
      ReplaceFrom(doubled, 0, SinglePattern(x.key), x.value) == Flatten(Substitute(ps, [x]))
    ensures Plain(Substitute(ps, [x]))
  {
    var mid := WithoutDouble(ps, x.key, x.value);
    ReplacedAll(Flatten(ps), DoublePattern(x.key), x.value);
    DoublePass(ps, x.key, x.value);
    ReplacedAll(Flatten(mid), SinglePattern(x.key), x.value);
    SinglePass(mid, x.key, x.value);
    SubstitutedOnce(ps, x);
  }

  lemma SubstitutedOnce(ps: seq<Piece>, x: Variable)
    requires Plain(ps) && BraceFree(x.key) && BraceFree(x.value)
    ensures Substitute(WithoutDouble(ps, x.key, x.value), [x]) == Substitute(ps, [x])
    ensures Plain(Substitute(ps, [x]))
  {
  }

  predicate PlainVariables(variables: seq<Variable>) {
    forall x <- variables :: BraceFree(x.key) && BraceFree(x.value) && !HasDollarPattern(x.value)
  }

  lemma SubstituteInSteps(ps: seq<Piece>, variables: seq<Variable>)
    requires variables != []
    ensures Substitute(Substitute(ps, [variables[0]]), variables[1..]) == Substitute(ps, variables)
  {
  }

  /** Main result: replacing variable after variable, double braces before single ones, is replacing
      every placeholder at once. */
  lemma {:induction false} RenderingIsSimultaneous(ps: seq<Piece>, variables: seq<Variable>)
    requires Plain(ps) && PlainVariables(variables)
    ensures Rendered(Flatten(ps), variables) == Flatten(Substitute(ps, variables))
    decreases |variables|
  {
    if variables == [] {
      assert Substitute(ps, variables) == ps;
    } else {
      assert variables[0] in variables;
      OneVariable(ps, variables[0]);
      RenderingIsSimultaneous(Substitute(ps, [variables[0]]), variables[1..]);
      SubstituteInSteps(ps, variables);
    }
  }

  ghost predicate DistinctNames(variables: seq<Variable>) {
    forall x <- variables, y <- variables :: x.key == y.key ==> x == y
  }

  /** Main result: the order in which the variables are listed does not matter. */
  lemma OrderDoesNotMatter(ps: seq<Piece>, a: seq<Variable>, b: seq<Variable>)
    requires Plain(ps) && PlainVariables(a) && PlainVariables(b) && DistinctNames(a)
    requires forall x :: x in a <==> x in b
    ensures Rendered(Flatten(ps), a) == Rendered(Flatten(ps), b)
  {
    RenderingIsSimultaneous(ps, a);
    RenderingIsSimultaneous(ps, b);
    forall i | 0 <= i < |ps|
      ensures Substitute(ps, a)[i] == Substitute(ps, b)[i]
    {
      if !ps[i].Text? {
        SameLookup(a, b, ps[i].name);
      }
    }
    assert Substitute(ps, a) == Substitute(ps, b);
  }

  /** A pattern longer than the rest of the text does not occur in it. */
  lemma {:induction false} TooLong(s: string, i: nat, pattern: string, v: string)
    requires i <= |s| && |pattern| > |s| - i
    ensures ReplaceFrom(s, i, pattern, v) == s[i..]
    decreases |s| - i
  {
    if i < |s| {
      TooLong(s, i + 1, pattern, v);
      assert s[i..] == [s[i]] + s[i + 1..];
    }
  }

  lemma WholeMatch(s: string, v: string)
    requires s != "" && !HasDollarPattern(v)
    ensures ReplaceFrom(s, 0, s, v) == v
  {
    assert s[0..] == s;
    ExpandPlain(v, s, s[..0], s[|s|..]);
    assert ReplaceFrom(s, |s|, s, v) == "";
  }

  /** With a brace in a value the order does matter: the value of the first variable is a placeholder of the
      second. */
  lemma BracesMakeOrderMatter()
    ensures
      var a, b := Variable("a", "{b}"), Variable("b", "x");
      Rendered("{a}", [a, b]) == "x" && Rendered("{a}", [b, a]) == "{b}"
  {
    var a, b := Variable("a", "{b}"), Variable("b", "x");
    assert SinglePattern("a") == "{a}" && SinglePattern("b") == "{b}";
    TooLong("{a}", 0, DoublePattern("a"), "{b}");
    WholeMatch("{a}", "{b}");
    TooLong("{b}", 0, DoublePattern("b"), "x");
    WholeMatch("{b}", "x");
    assert [a, b][1..] == [b] && [b][1..] == [];
    assert Rendered("{b}", [b]) == "x";
    TooLong("{a}", 0, DoublePattern("b"), "x");
    TooLong("{a}", 1, "{b}", "x");
    assert "{a}"[1] != "{b}"[1];
    assert ReplaceFrom("{a}", 0, "{b}", "x") == "{a}";
    assert [b, a][1..] == [a] && [a][1..] == [];
    assert Rendered("{a}", [a]) == "{b}";
  }

  lemma KeyOfMember(variables: seq<Variable>, x: Variable)
    requires x in variables
    ensures x.key in KeysOf(variables)
  {
    var i :| 0 <= i < |variables| && variables[i] == x;
    assert KeysOf(variables)[i] == x.key;
  }

  lemma SameLookup(a: seq<Variable>, b: seq<Variable>, name: string)
    requires DistinctNames(a) && forall x :: x in a <==> x in b
    ensures Lookup(a, name) == Lookup(b, name)
  {
    if Lookup(a, name).Some? {
      KeyOfMember(b, Variable(name, Lookup(a, name).value));
    }
    if Lookup(b, name).Some? {
      KeyOfMember(a, Variable(name, Lookup(b, name).value));
    }
  }

  // ------------------------------------------------------------------
  // Extraction and validity
  // ------------------------------------------------------------------

  predicate Named(ps: seq<Piece>) {
    Plain(ps) && forall p <- ps :: !p.Text? ==> p.name != ""
  }

  function NamesOf(ps: seq<Piece>): (names: seq<string>)
    ensures forall n :: n in names <==> exists p :: p in ps && !p.Text? && p.name == n
  {
    if ps == [] then []
    else
      assert ps == [ps[0]] + ps[1..];
      (if ps[0].Text? then [] else [ps[0].name]) + NamesOf(ps[1..])
  }

  lemma {:induction false} CloseAfter(t: string, s: string, i: nat)
    requires i <= |t| && '}' !in t
    ensures FirstClose(t + "}" + s, i) == |t|
    decreases |t| - i
  {
    var all := t + "}" + s;
    assert all[|t|] == '}' && forall k :: 0 <= k < |t| ==> all[k] == t[k];
  }

  lemma {:induction false} SinglesSkipText(t: string, s: string)
    requires '{' !in t
    ensures SingleNames(t + s) == SingleNames(s)
    decreases |t|
  {
    if t == "" {
      assert t + s == s;
    } else {
      assert (t + s)[0] == t[0] && (t + s)[1..] == t[1..] + s && t[0] in t;
      SinglesSkipText(t[1..], s);
    }
  }

  lemma SingleFound(j: string, s: string)
    requires BraceFree(j) && j != ""
    ensures SingleNames("{" + j + "}" + s) == [j] + SingleNames(s)
  {
    var all := "{" + j + "}" + s;
    assert j[0] in j && all[1] == j[0];
    CloseAfter("{" + j, s, 2);
    assert MatchSingle(all) == Some(|j| + 1);
    assert all[1..|j| + 1] == j && all[|j| + 2..] == s;
  }

  lemma SingleInDouble(j: string, s: string)
    requires BraceFree(j) && j != ""
    ensures SingleNames(DoublePattern(j) + s) == [j] + SingleNames(s)
  {
    var all := DoublePattern(j) + s;
    assert all[0] == '{' && all[1] == '{';
    assert all[1..] == "{" + j + "}" + ("}" + s);
    SingleFound(j, "}" + s);
    SinglesSkipText("}", s);
  }

  lemma {:induction false} SinglesOfPieces(ps: seq<Piece>)
    requires Named(ps)
    ensures SingleNames(Flatten(ps)) == NamesOf(ps)
    decreases |ps|
  {
    if ps != [] {
      SinglesOfPieces(ps[1..]);
      var s := Flatten(ps[1..]);
      assert ps[0] in ps;
      match ps[0]
      case Text(t) =>
        SinglesSkipText(t, s);
      case Single(j) =>
        SingleFound(j, s);
      case Double(j) =>
        SingleInDouble(j, s);
    }
  }

  /** Every double-braced name that the first search finds is a name of a piece. */
  lemma {:induction false} DoublesSkipText(t: string, s: string)
    requires '{' !in t
    ensures DoubleNames(t + s) == DoubleNames(s)
    decreases |t|
  {
    if t == "" {
      assert t + s == s;
    } else {
      assert (t + s)[0] == t[0] && (t + s)[1..] == t[1..] + s && t[0] in t;
      DoublesSkipText(t[1..], s);
    }
  }

  lemma DoublesSkipSingle(t: string, s: string)
    requires '{' !in t && t != ""
    ensures DoubleNames("{" + t + s) == DoubleNames(s)
  {
    var all := "{" + t + s;
    assert all[1] == t[0] && t[0] in t && all[1..] == t + s;
    DoublesSkipText(t, s);
  }

  lemma DoubleFound(j: string, s: string)
    requires BraceFree(j) && j != ""
    ensures DoubleNames(DoublePattern(j) + s) == (if IsBlockTag(j) then [] else [j]) + DoubleNames(s)
  {
    var all := DoublePattern(j) + s;
    assert all[0] == '{' && all[1] == '{' && all[2] == j[0] && j[0] in j;
    if IsBlockTag(j) {
      assert all[1..] == "{" + (j + "}}") + s;
      DoublesSkipSingle(j + "}}", s);
    } else {
      assert all == "{{" + j + "}" + ("}" + s);
      CloseAfter("{{" + j, "}" + s, 3);
      assert all[|j| + 3] == '}';
      assert MatchDouble(all) == Some(|j| + 2);
      assert all[2..|j| + 2] == j && all[|j| + 4..] == s;
    }
  }

  lemma {:induction false} DoublesOfPieces(ps: seq<Piece>)
    requires Named(ps)
    ensures forall n <- DoubleNames(Flatten(ps)) :: n in NamesOf(ps)
    decreases |ps|
  {
    if ps != [] {
      DoublesOfPieces(ps[1..]);
      var s := Flatten(ps[1..]);
      assert ps[0] in ps;
      match ps[0]
      case Text(t) =>
        DoublesSkipText(t, s);
      case Single(j) =>
        assert Source(ps[0]) + s == "{" + (j + "}") + s;
        DoublesSkipSingle(j + "}", s);
      case Double(j) =>
        DoubleFound(j, s);
    }
  }

  lemma {:induction false} SinglesAdded(variables: seq<string>, names: seq<string>)
    ensures forall x :: x in AddSingles(variables, names) <==>
      x in variables || (x != "" && exists n :: n in names && Trim(n) == x)
    decreases |names|
  {
    if names != [] {
      SinglesAdded(AddName(variables, Trim(names[0])), names[1..]);
      assert names == [names[0]] + names[1..];
    }
  }

  lemma {:induction false} DoublesAdded(variables: seq<string>, names: seq<string>)
    ensures forall x <- AddDoubles(variables, names) ::
              x in variables || (x != "" && exists n :: n in names && Trim(n) == x)
    decreases |names|
  {
    if names != [] {
      DoublesAdded(WithDouble(variables, names[0]), names[1..]);
      assert names == [names[0]] + names[1..];
    }
  }

  /** Main result: what is extracted from a template is exactly its placeholders' names, trimmed, the
      blank ones left out.  Block tags such as `{{#if}}` are among them: the first search skips them, as
      the comment there intends, but the second one finds them. */
  lemma ExtractsTheNames(ps: seq<Piece>, x: string)
    requires Named(ps)
    ensures x in Extracted(Flatten(ps)) <==> x != "" && exists n :: n in NamesOf(ps) && Trim(n) == x
  {
    var t := Flatten(ps);
    SinglesOfPieces(ps);
    DoublesOfPieces(ps);
    DoublesAdded([], DoubleNames(t));
    SinglesAdded(AddDoubles([], DoubleNames(t)), SingleNames(t));
  }

  lemma BlockTagsAreRequired(name: string)
    requires BraceFree(name) && IsBlockTag(name) && Trim(name) == name
    ensures DoubleNames(DoublePattern(name)) == [] && name in Extracted(DoublePattern(name))
  {
    var ps := [Double(name)];
    assert Flatten(ps) == DoublePattern(name) + "" == DoublePattern(name);
    assert NamesOf(ps) == [name];
    DoubleFound(name, "");
    ExtractsTheNames(ps, name);
  }

  /** No brace left, so no placeholder. */
  lemma {:induction false} BraceFreeIffText(ps: seq<Piece>)
    requires Plain(ps)
    ensures '{' !in Flatten(ps) <==> forall p <- ps :: p.Text?
    decreases |ps|
  {
    if ps != [] {
      BraceFreeIffText(ps[1..]);
      assert ps == [ps[0]] + ps[1..];
      assert PlainPiece(ps[0]);
      var source := Source(ps[0]);
      if !ps[0].Text? {
        assert source[0] == '{' && Flatten(ps)[0] == '{';
      }
      assert forall c :: c in Flatten(ps) <==> c in source || c in Flatten(ps[1..]);
    }
  }

  /** The rendered template is free of placeholders exactly when every name, as written, has a value. */
  lemma FullyRenderedIff(ps: seq<Piece>, variables: seq<Variable>)
    requires Plain(ps) && PlainVariables(variables)
    ensures '{' !in Rendered(Flatten(ps), variables) <==> forall n <- NamesOf(ps) :: n in KeysOf(variables)
  {
    var r := Substitute(ps, variables);
    RenderingIsSimultaneous(ps, variables);
    forall i | 0 <= i < |ps|
      ensures PlainPiece(r[i]) && (r[i].Text? <==> ps[i].Text? || ps[i].name in KeysOf(variables))
    {
      assert ps[i] in ps;
    }
    BraceFreeIffText(r);
    forall i | 0 <= i < |ps|
      ensures !ps[i].Text? ==> ps[i].name in NamesOf(ps)
    {
      assert ps[i] in ps;
    }
    if forall p <- r :: p.Text? {
      forall n | n in NamesOf(ps)
        ensures n in KeysOf(variables)
      {
        var p :| p in ps && !p.Text? && p.name == n;
        var i :| 0 <= i < |ps| && ps[i] == p;
        assert r[i] in r;
      }
    }
  }

  /** Main result: when no name has surrounding blanks, the variables are valid exactly when rendering
      leaves no placeholder. */
  lemma ValidIffFullyRendered(ps: seq<Piece>, variables: seq<Variable>)
    requires Named(ps) && PlainVariables(variables) && forall n <- NamesOf(ps) :: Trim(n) == n
    ensures (forall name <- Extracted(Flatten(ps)) :: name in KeysOf(variables)) <==>
            '{' !in Rendered(Flatten(ps), variables)
  {
    FullyRenderedIff(ps, variables);
    forall x
      ensures x in Extracted(Flatten(ps)) <==> x in NamesOf(ps)
    {
      ExtractsTheNames(ps, x);
      if x in NamesOf(ps) {
        var p :| p in ps && !p.Text? && p.name == x;
      }
    }
  }

  /** With surrounding blanks the two differ: the name is looked up trimmed but replaced as written. */
  lemma BlanksBreakValidity(name: string, variables: seq<Variable>)
    requires BraceFree(name) && Trim(name) != "" && name !in KeysOf(variables)
    requires PlainVariables(variables) && Trim(name) in KeysOf(variables)
    ensures forall n <- Extracted(SinglePattern(name)) :: n in KeysOf(variables)
    ensures '{' in Rendered(SinglePattern(name), variables)
  {
    var ps := [Single(name)];
    assert Flatten(ps) == SinglePattern(name) + "" == SinglePattern(name);
    assert NamesOf(ps) == [name];
    FullyRenderedIff(ps, variables);
    forall n | n in Extracted(SinglePattern(name))
      ensures n in KeysOf(variables)
    {
      ExtractsTheNames(ps, n);
    }
  }

  // ------------------------------------------------------------------
  // Trimming
  // ------------------------------------------------------------------

  /** The white space and the line terminators of ECMAScript, by code point. */
  predicate WhiteSpace(c: char) {
    var n := c as int;
    || 9 <= n <= 13 || n == 32 || n == 160 || n == 0x1680 || 0x2000 <= n <= 0x200A
    || n == 0x2028 || n == 0x2029 || n == 0x202F || n == 0x205F || n == 0x3000 || n == 0xFEFF
  }

  lemma BlankIff(c: char)
    ensures IsBlank(c) <==> WhiteSpace(c)
  {
  }

  lemma {:induction false} TrimStartCuts(s: string) returns (i: nat)
    ensures i <= |s| && TrimStart(s) == s[i..] && forall k :: 0 <= k < i ==> WhiteSpace(s[k])
    ensures i < |s| ==> !WhiteSpace(s[i])
  {
    i := 0;
    if s != "" {
      BlankIff(s[0]);
      if WhiteSpace(s[0]) {
        var n := TrimStartCuts(s[1..]);
        i := n + 1;
        assert s[1..][n..] == s[i..];
        assert forall k :: 1 <= k < i ==> s[k] == s[1..][k - 1];
      }
    }
  }

  lemma {:induction false} TrimEndCuts(s: string) returns (j: nat)
    ensures j <= |s| && TrimEnd(s) == s[..j] && forall k :: j <= k < |s| ==> WhiteSpace(s[k])
    ensures j > 0 ==> !WhiteSpace(s[j - 1])
  {
    j := |s|;
    if s != "" {
      BlankIff(s[|s| - 1]);
      if WhiteSpace(s[|s| - 1]) {
        j := TrimEndCuts(s[..|s| - 1]);
        assert s[..|s| - 1][..j] == s[..j];
        assert forall k :: j <= k < |s| - 1 ==> s[k] == s[..|s| - 1][k];
      }
    }
  }

  /** Trimming cuts off the white space at both ends, all of it and nothing else. */
  lemma TrimCuts(s: string) returns (i: nat, j: nat)
    ensures i <= j <= |s| && Trim(s) == s[i..j]
    ensures (forall k :: 0 <= k < i ==> WhiteSpace(s[k])) && forall k :: j <= k < |s| ==> WhiteSpace(s[k])
    ensures i < j ==> !WhiteSpace(s[i]) && !WhiteSpace(s[j - 1])
  {
    i := TrimStartCuts(s);
    var n := TrimEndCuts(s[i..]);
    j := i + n;
    assert s[i..][..n] == s[i..j];
    assert n > 0 ==> s[i..][n - 1] == s[j - 1];
    assert forall k :: j <= k < |s| ==> s[k] == s[i..][k - i];
  }

  // ------------------------------------------------------------------
  // The two patterns
  // ------------------------------------------------------------------

  /** The first pattern matches two opening braces, a character that is none of `#`, `/` and a closing brace, any
      others that are no closing brace, and two closing braces. */
  lemma MatchDoubleIff(s: string, end: nat)
    ensures MatchDouble(s) == Some(end) <==>
            && 3 <= end && end + 2 <= |s|
            && s[0] == '{' && s[1] == '{' && s[2] !in "#/}"
            && (forall k :: 3 <= k < end ==> s[k] != '}')
            && s[end] == '}' && s[end + 1] == '}'
  {
  }

  /** The second one matches an opening brace, a character that is no opening one, any others that are no closing
      brace, and a closing one. */
  lemma MatchSingleIff(s: string, end: nat)
    ensures MatchSingle(s) == Some(end) <==>
            && 2 <= end < |s|
            && s[0] == '{' && s[1] != '{'
            && (forall k :: 2 <= k < end ==> s[k] != '}')
            && s[end] == '}'
  {
  }
}
