/** Counting kernel parameters in a demangled signature
    (count_params_from_mangled, guest/intercept/hmcuda_runtime.cpp:43-82, after demangling). */
module ParamCount {

  /** strchr: position of the first `c`, or the length. */
  function FirstOf(s: string, c: char): (i: nat)
    ensures i <= |s| && (i < |s| ==> s[i] == c)
  {
    if s == [] || s[0] == c then 0 else 1 + FirstOf(s[1..], c)
  }

  /** strrchr: position after the last `c`, or 0. */
  function AfterLast(s: string, c: char): (i: nat)
    ensures i <= |s| && (i > 0 ==> s[i - 1] == c)
  {
    if s == [] then 0
    else if s[|s| - 1] == c then |s|
    else AfterLast(s[..|s| - 1], c)
  }

  predicate Opens(c: char) {
    c == '<' || c == '('
  }

  predicate Closes(c: char) {
    c == '>' || c == ')'
  }

  /** Commas at bracket depth 0, when the text starts at depth `depth`. */
  function Commas(s: string, depth: int): nat {
    if s == [] then 0
    else if Opens(s[0]) then Commas(s[1..], depth + 1)
    else if Closes(s[0]) then Commas(s[1..], depth - 1)
    else (if s[0] == ',' && depth == 0 then 1 else 0) + Commas(s[1..], depth)
  }

  function SkipSpaces(s: string): string {
    if s != [] && s[0] == ' ' then SkipSpaces(s[1..]) else s
  }

  predicate StartsVoid(s: string) {
    "void" <= SkipSpaces(s)
  }

  /** What the counter returns for a demangled name. */
  function ParamCount(s: string): nat {
    var paren, close := FirstOf(s, '(') + 1, AfterLast(s, ')');
    if paren > |s| || close == 0 || close - 1 <= paren then 0
    else
      var count := 1 + Commas(s[paren..close - 1], 0);
      if count == 1 && StartsVoid(s[paren..]) then 0 else count
  }

  /* ---- the loops ---- */

  method Strchr(s: string, c: char) returns (i: nat)
    ensures i == FirstOf(s, c)
  {
    i := 0;
    while i < |s| && s[i] != c
      invariant i <= |s| && i + FirstOf(s[i..], c) == FirstOf(s, c)
    {
      i := i + 1;
    }
  }

  method Strrchr(s: string, c: char) returns (after: nat)
    ensures after == AfterLast(s, c)
  {
    after := |s|;
    assert s[..|s|] == s;
    while after > 0 && s[after - 1] != c
      invariant after <= |s| && AfterLast(s[..after], c) == AfterLast(s, c)
    {
      assert s[..after][..after - 1] == s[..after - 1];
      after := after - 1;
    }
  }

  method Count(body: string) returns (count: nat)
    ensures count == 1 + Commas(body, 0)
  {
    count := 1;
    var depth := 0;
    var p := 0;
    while p < |body|
      invariant p <= |body| && count + Commas(body[p..], depth) == 1 + Commas(body, 0)
    {
      assert body[p..][1..] == body[p + 1..];
      if body[p] == '<' || body[p] == '(' {
        depth := depth + 1;
      } else if body[p] == '>' || body[p] == ')' {
        depth := depth - 1;
      } else if body[p] == ',' && depth == 0 {
        count := count + 1;
      }
      p := p + 1;
    }
  }

  method StartsWithVoid(s: string) returns (yes: bool)
    ensures yes <==> StartsVoid(s)
  {
    var p := 0;
    while p < |s| && s[p] == ' '
      invariant p <= |s| && SkipSpaces(s[p..]) == SkipSpaces(s)
    {
      p := p + 1;
    }
    yes := "void" <= s[p..];
  }

  method CountParams(demangled: string) returns (count: nat)
    ensures count == ParamCount(demangled)
  {
    var paren := Strchr(demangled, '(');
    if paren == |demangled| {
      return 0;
    }
    paren := paren + 1;
    var after := Strrchr(demangled, ')');
    if after == 0 || after - 1 <= paren {
      return 0;
    }
    count := Count(demangled[paren..after - 1]);
    if count == 1 {
      var isVoid := StartsWithVoid(demangled[paren..]);
      if isVoid {
        count := 0;
      }
    }
  }

  /* ---- the counter inverts printing ---- */

  /** Brackets match, never close below the start, and every comma is inside some. */
  predicate Plain(s: string, depth: nat) {
    if s == [] then depth == 0
    else if Opens(s[0]) then Plain(s[1..], depth + 1)
    else if Closes(s[0]) then depth > 0 && Plain(s[1..], depth - 1)
    else (s[0] == ',' ==> depth > 0) && Plain(s[1..], depth)
  }

  ghost predicate Params(ps: seq<string>) {
    forall i | 0 <= i < |ps| :: ps[i] != [] && Plain(ps[i], 0)
  }

  function Join(ps: seq<string>): string {
    if ps == [] then [] else if |ps| == 1 then ps[0] else ps[0] + (", " + Join(ps[1..]))
  }

  function Signature(name: string, ps: seq<string>, suffix: string): string {
    name + ("(" + (Join(ps) + (")" + suffix)))
  }

  lemma {:induction false} PlainSkips(p: string, depth: nat, rest: string)
    requires Plain(p, depth)
    ensures Commas(p + rest, depth) == Commas(rest, 0)
    decreases |p|
  {
    if p == [] {
      assert p + rest == rest;
    } else {
      assert (p + rest)[1..] == p[1..] + rest;
      var d: nat := if Opens(p[0]) then depth + 1 else if Closes(p[0]) then depth - 1 else depth;
      PlainSkips(p[1..], d, rest);
    }
  }

  lemma {:induction false} CommasOfJoin(ps: seq<string>)
    requires Params(ps) && ps != []
    ensures 1 + Commas(Join(ps), 0) == |ps|
    decreases |ps|
  {
    assert Plain(ps[0], 0);
    if |ps| == 1 {
      PlainSkips(ps[0], 0, []);
      assert ps[0] + [] == ps[0];
    } else {
      var rest := ps[1..];
      assert Params(rest) by {
        forall i | 0 <= i < |rest| ensures rest[i] != [] && Plain(rest[i], 0) {
          assert rest[i] == ps[i + 1];
        }
      }
      CommasOfJoin(rest);
      PlainSkips(ps[0], 0, ", " + Join(rest));
      assert (", " + Join(rest))[1..] == " " + Join(rest);
      assert (" " + Join(rest))[1..] == Join(rest);
    }
  }

  lemma {:induction false} FirstOfAppend(a: string, c: char, b: string)
    requires c !in a && b != [] && b[0] == c
    ensures FirstOf(a + b, c) == |a|
    decreases |a|
  {
    if a == [] {
      assert a + b == b;
    } else {
      assert (a + b)[1..] == a[1..] + b;
      FirstOfAppend(a[1..], c, b);
    }
  }

  lemma {:induction false} AfterLastAppend(a: string, c: char, b: string)
    requires c !in b && a != [] && a[|a| - 1] == c
    ensures AfterLast(a + b, c) == |a|
    decreases |b|
  {
    if b == [] {
      assert a + b == a;
    } else {
      assert (a + b)[..|a + b| - 1] == a + b[..|b| - 1];
      AfterLastAppend(a, c, b[..|b| - 1]);
    }
  }

  /** Where the counter cuts a printed signature. */
  lemma Cuts(name: string, ps: seq<string>, suffix: string)
    requires '(' !in name && ')' !in suffix
    ensures
      var s := Signature(name, ps, suffix);
      && FirstOf(s, '(') == |name| && |s| > |name| && s[|name| + 1..] == Join(ps) + (")" + suffix)
      && AfterLast(s, ')') == |name| + |Join(ps)| + 2
      && s[|name| + 1..|name| + 1 + |Join(ps)|] == Join(ps)
  {
    var body := Join(ps);
    var s, tail := Signature(name, ps, suffix), "(" + (body + (")" + suffix));
    FirstOfAppend(name, '(', tail);
    var front := name + ("(" + (body + ")"));
    assert s == front + suffix;
    AfterLastAppend(front, ')', suffix);
  }

  lemma {:induction false} VoidAtFront(p: string, rest: string)
    requires p != [] && rest != [] && rest[0] == ')'
    ensures StartsVoid(p + rest) <==> StartsVoid(p)
    decreases |p|
  {
    assert (p + rest)[0] == p[0];
    if p[0] == ' ' {
      assert (p + rest)[1..] == p[1..] + rest;
      if |p| == 1 {
        assert p[1..] + rest == rest;
        assert SkipSpaces(rest) == rest && SkipSpaces(p[1..]) == [];
      } else {
        VoidAtFront(p[1..], rest);
      }
    } else {
      VoidPrefix(p, rest);
    }
  }

  lemma VoidPrefix(p: string, rest: string)
    requires rest != [] && rest[0] == ')'
    ensures "void" <= p + rest <==> "void" <= p
  {
    assert (p + rest)[|p|] == ')';
    assert forall i | 0 <= i < 4 :: "void"[i] != ')';
  }

  /** Printing n parameters and counting them gives n, except that a sole parameter whose
      text begins with `void` counts as none; an empty list counts as none. */
  lemma CountInvertsPrinting(name: string, ps: seq<string>, suffix: string)
    requires '(' !in name && ')' !in suffix && Params(ps)
    ensures ParamCount(Signature(name, ps, suffix)) ==
            if |ps| == 1 && StartsVoid(ps[0]) then 0 else |ps|
  {
    Cuts(name, ps, suffix);
    if ps != [] {
      CommasOfJoin(ps);
      assert ps[0] != [];
      if |ps| == 1 {
        VoidAtFront(ps[0], ")" + suffix);
      }
    }
  }

  /** A pointer to void as the only parameter is lost. */
  lemma VoidPointerIsLost(name: string)
    requires '(' !in name
    ensures ParamCount(Signature(name, ["void*"], "")) == 0
  {
    assert Plain("void*", 0) by {
      assert "void*"[1..] == "oid*" && "oid*"[1..] == "id*" && "id*"[1..] == "d*" && "d*"[1..] == "*" && "*"[1..] == "";
      assert Plain("*", 0);
      assert Plain("d*", 0);
      assert Plain("id*", 0);
      assert Plain("oid*", 0);
    }
    CountInvertsPrinting(name, ["void*"], "");
  }

  /* ---- what is counted, by position ---- */

  /** Brackets opened less brackets closed. */
  function Balance(s: string): int {
    var up: int := multiset(s)['<'] + multiset(s)['('];
    up - (multiset(s)['>'] + multiset(s)[')'])
  }

  /** Positions of the commas before which as many brackets were closed as opened; more may have
      been closed than opened on the way there. */
  ghost function Separators(s: string): set<nat> {
    set i: nat | i < |s| && s[i] == ',' && Balance(s[..i]) == 0
  }

  lemma {:induction false} CommasSnoc(s: string, c: char, depth: int)
    ensures Commas(s + [c], depth) == Commas(s, depth) + if c == ',' && depth + Balance(s) == 0 then 1 else 0
    decreases |s|
  {
    if s == [] {
      assert (s + [c])[1..] == [] && (s + [c])[0] == c;
    } else {
      assert (s + [c])[1..] == s[1..] + [c];
      assert s == [s[0]] + s[1..];
      var d := if Opens(s[0]) then depth + 1 else if Closes(s[0]) then depth - 1 else depth;
      CommasSnoc(s[1..], c, d);
      assert depth + Balance(s) == d + Balance(s[1..]);
    }
  }

  lemma {:induction false} CommasAreSeparators(s: string)
    ensures Commas(s, 0) == |Separators(s)|
    decreases |s|
  {
    if s != [] {
      var n := |s| - 1;
      var t := s[..n];
      assert s == t + [s[n]];
      CommasAreSeparators(t);
      CommasSnoc(t, s[n], 0);
      assert forall i: nat | i < n :: t[..i] == s[..i];
      if s[n] == ',' && Balance(t) == 0 {
        assert Separators(s) == Separators(t) + {n};
      } else {
        assert Separators(s) == Separators(t);
      }
    }
  }

  predicate VoidAfter(s: string, n: nat) {
    n + 4 <= |s| && s[n..n + 4] == "void" && forall i | 0 <= i < n :: s[i] == ' '
  }

  lemma VoidAfterShift(s: string, n: nat)
    requires s != [] && s[0] == ' '
    ensures VoidAfter(s, n + 1) <==> VoidAfter(s[1..], n)
  {
    var t := s[1..];
    if n + 4 <= |t| {
      assert s[n + 1..n + 1 + 4] == t[n..n + 4];
      assert (forall i | 0 <= i < n + 1 :: s[i] == ' ') <==> forall i | 0 <= i < n :: t[i] == ' ' by {
        assert forall i | 0 <= i < n :: t[i] == s[i + 1];
        assert forall i | 0 < i < n + 1 :: s[i] == t[i - 1];
      }
    }
  }

  lemma VoidHere(s: string)
    ensures VoidAfter(s, 0) <==> "void" <= s
    ensures VoidAfter(s, 0) ==> s[0] == 'v'
  {
    if |s| >= 4 {
      assert s[0..4] == s[..4];
    }
  }

  /** `void` behind any number of spaces. */
  lemma {:induction false} VoidIsAfterSpaces(s: string)
    ensures StartsVoid(s) <==> exists n: nat :: VoidAfter(s, n)
    decreases |s|
  {
    VoidHere(s);
    if s != [] && s[0] == ' ' {
      VoidIsAfterSpaces(s[1..]);
      if n: nat :| VoidAfter(s[1..], n) {
        VoidAfterShift(s, n);
      }
      if n: nat :| VoidAfter(s, n) {
        VoidAfterShift(s, n - 1);
      }
    }
  }

  /** Every text: between its first `(` and its last `)` the separators are counted, and one
      more; nothing there, or no such pair, is no parameter. */
  lemma CountIs(s: string, open: nat, close: nat)
    requires open < |s| && s[open] == '(' && '(' !in s[..open]
    requires close < |s| && s[close] == ')' && ')' !in s[close + 1..]
    ensures ParamCount(s) ==
            if close <= open + 1 then 0
            else if Separators(s[open + 1..close]) == {} && StartsVoid(s[open + 1..]) then 0
            else 1 + |Separators(s[open + 1..close])|
  {
    assert s == s[..open] + s[open..];
    FirstOfAppend(s[..open], '(', s[open..]);
    assert s == s[..close + 1] + s[close + 1..];
    AfterLastAppend(s[..close + 1], ')', s[close + 1..]);
    if close > open + 1 {
      CommasAreSeparators(s[open + 1..close]);
    }
  }

  lemma CountsNothing(s: string)
    requires '(' !in s || ')' !in s
    ensures ParamCount(s) == 0
  {
  }

  /** No bracket and no comma. */
  predicate Word(s: string) {
    forall c | c in s :: !Opens(c) && !Closes(c) && c != ','
  }

  lemma {:induction false} WordSkips(w: string, rest: string, depth: int)
    requires Word(w)
    ensures Commas(w + rest, depth) == Commas(rest, depth)
    decreases |w|
  {
    if w == [] {
      assert w + rest == rest;
    } else {
      assert (w + rest)[1..] == w[1..] + rest;
      WordSkips(w[1..], rest, depth);
    }
  }

  /** The text from the first bracket of a name such as `(anonymous namespace)::k`, as far as
      the end of the parameter list. */
  function Bracketed(inner: string, name: string, ps: seq<string>): string {
    inner + (")" + (name + ("(" + Join(ps))))
  }

  lemma CommasOfBracketed(inner: string, name: string, ps: seq<string>)
    requires Word(inner) && Word(name)
    ensures Commas(Bracketed(inner, name, ps), 0) == Commas(Join(ps), 0)
  {
    var list := "(" + Join(ps);
    var back := name + list;
    WordSkips(inner, ")" + back, 0);
    assert (")" + back)[1..] == back;
    WordSkips(name, list, -1);
    assert list[1..] == Join(ps);
  }

  /** With such a name the scan begins too early, and its depth goes below 0 and back.  Two
      parameters or more are counted right; with none or one (`void` too) the count is 1. */
  lemma BracketedName(inner: string, name: string, ps: seq<string>, suffix: string)
    requires Word(inner) && Word(name) && ')' !in suffix && Params(ps)
    requires !StartsVoid(Bracketed(inner, name, ps) + (")" + suffix))
    ensures ParamCount("(" + (Bracketed(inner, name, ps) + (")" + suffix))) == if ps == [] then 1 else |ps|
  {
    var body := Bracketed(inner, name, ps);
    var tail := body + (")" + suffix);
    BetweenIs(body, suffix, tail, "(" + tail);
    CommasOfBracketed(inner, name, ps);
    CommasAreSeparators(body);
    if ps != [] {
      CommasOfJoin(ps);
    }
  }

  lemma BetweenIs(body: string, suffix: string, tail: string, s: string)
    requires tail == body + (")" + suffix) && s == "(" + tail
    requires ')' !in suffix && body != [] && !StartsVoid(tail)
    ensures ParamCount(s) == 1 + |Separators(body)|
  {
    var n := |body|;
    TailParts(body, suffix, tail, n);
    FrontParts(tail, s, n);
    SoleCount(s, body, tail);
  }

  lemma SoleCount(s: string, body: string, tail: string)
    requires body != [] && |s| > |body| + 1 && s[0] == '(' && s[..0] == [] && s[1..] == tail && !StartsVoid(tail)
    requires s[1..|body| + 1] == body && s[|body| + 1] == ')' && ')' !in s[|body| + 2..]
    ensures ParamCount(s) == 1 + |Separators(body)|
  {
    CountIs(s, 0, |body| + 1);
  }

  lemma TailParts(body: string, suffix: string, tail: string, n: nat)
    requires tail == body + (")" + suffix) && n == |body|
    ensures |tail| > n && tail[..n] == body && tail[n] == ')' && tail[n + 1..] == suffix
  {
  }

  lemma FrontParts(tail: string, s: string, n: nat)
    requires s == "(" + tail && n < |tail|
    ensures |s| > n + 1 && s[0] == '(' && s[..0] == [] && s[1..] == tail
    ensures s[1..n + 1] == tail[..n] && s[n + 1] == tail[n] && s[n + 2..] == tail[n + 1..]
  {
  }
}
