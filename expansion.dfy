/** The expansion engine of `bin/oe/data.py` (`expand`): every pass first
    replaces each `${NAME}` by the raw stored content of NAME, then each
    `${@code}` region by what the embedded-code evaluator makes of `code`; the
    passes repeat while a `$` is left, until a pass changes nothing or the
    string grows past the length guard. Each substitution is one
    left-to-right sweep, as `re.sub` makes it: what a sweep inserts is not
    scanned again by that sweep. The passes need not come to an end (see
    `Examples.MutualReferenceNeverSettles`), so the loop is given a budget of
    passes and says when the budget ran out. */
module Expansion {
  import opened Wrappers
  import opened VarStore

  /** The runaway guard: expansion stops once a pass leaves more characters. */
  const MaxLength: nat := 2048

  /** The embedded-code evaluator: the code between `${@` and `}` and the store
      it may read; None stands for an exception the code raised. */
  type Evaluator = (string, Data) -> Option<string>

  /** What `expand` gives: the expanded text (None for None), the exception of
      embedded code, or the string reached when the budget of passes ran out. */
  datatype Outcome = Expanded(text: Option<string>) | Raised | Exhausted(partial: string)

  predicate IsBrace(c: char) {
    c == '{' || c == '}'
  }

  /** `t` is one whole match of the variable pattern `\${[^{}]+}`. */
  predicate IsVarRef(t: string) {
    |t| >= 4 && t[0] == '$' && t[1] == '{' && t[|t| - 1] == '}' &&
    forall i :: 2 <= i < |t| - 1 ==> !IsBrace(t[i])
  }

  /** `t` is one whole match of the code pattern `\${@.+?}`: at least one
      character that is not a newline, then the first `}` after it. */
  predicate IsCodeRef(t: string) {
    |t| >= 5 && t[0] == '$' && t[1] == '{' && t[2] == '@' && t[|t| - 1] == '}' &&
    (forall i :: 3 <= i < |t| - 1 ==> t[i] != '\n') &&
    (forall i :: 4 <= i < |t| - 1 ==> t[i] != '}')
  }

  /** The first position at or after `i` whose character is in `stops`, or `|s|`. */
  function Scan(s: string, i: nat, stops: set<char>): (j: nat)
    requires i <= |s|
    ensures i <= j <= |s|
    ensures j < |s| ==> s[j] in stops
    ensures forall k :: i <= k < j ==> s[k] !in stops
    decreases |s| - i
  {
    if i == |s| || s[i] in stops then i else Scan(s, i + 1, stops)
  }

  /** The length of the variable reference that starts `s`, if one does. */
  function VarRefAt(s: string): (r: Option<nat>)
    ensures r.Some? ==> 4 <= r.value <= |s| && IsVarRef(s[..r.value])
  {
    if 2 <= |s| && s[0] == '$' && s[1] == '{' then
      var j := Scan(s, 2, {'{', '}'});
      if j < |s| && s[j] == '}' && j > 2 then
        assert forall i :: 2 <= i < j ==> s[..j + 1][i] == s[i];
        Some(j + 1)
      else None
    else None
  }

  /** The length of the code region that starts `s`, if one does. */
  function CodeRefAt(s: string): (r: Option<nat>)
    ensures r.Some? ==> 5 <= r.value <= |s| && IsCodeRef(s[..r.value])
  {
    if 4 <= |s| && s[0] == '$' && s[1] == '{' && s[2] == '@' && s[3] != '\n' then
      var j := Scan(s, 4, {'}', '\n'});
      if j < |s| && s[j] == '}' then
        assert forall i :: 3 <= i < j ==> s[..j + 1][i] == s[i];
        Some(j + 1)
      else None
    else None
  }

  /** The reference `VarRefAt` finds is the only prefix of `s` that matches
      the variable pattern, and it finds one whenever one does. */
  lemma VarRefAtUnique(s: string)
    ensures forall k :: 0 <= k <= |s| && IsVarRef(s[..k]) ==> VarRefAt(s) == Some(k)
  {
    forall k | 0 <= k <= |s| && IsVarRef(s[..k]) ensures VarRefAt(s) == Some(k) {
      assert s[..k][k - 1] == s[k - 1];
      assert forall i :: 2 <= i < k - 1 ==> s[..k][i] == s[i];
      assert Scan(s, 2, {'{', '}'}) == k - 1;
    }
  }

  /** The region `CodeRefAt` finds is the only prefix of `s` that matches the
      code pattern, and it finds one whenever one does. */
  lemma CodeRefAtUnique(s: string)
    ensures forall k :: 0 <= k <= |s| && IsCodeRef(s[..k]) ==> CodeRefAt(s) == Some(k)
  {
    forall k | 0 <= k <= |s| && IsCodeRef(s[..k]) ensures CodeRefAt(s) == Some(k) {
      assert s[..k][k - 1] == s[k - 1];
      assert forall i :: 3 <= i < k - 1 ==> s[..k][i] == s[i];
      assert Scan(s, 4, {'}', '\n'}) == k - 1;
    }
  }

  /** What `var_sub` puts in place of the match `t`: the raw content stored
      under the name between `${` and `}`, or `t` itself when there is none. */
  function VarReplacement(t: string, d: Data): string
    requires |t| >= 3
  {
    match GetVar(d, t[2..|t| - 1])
    case Some(v) => v
    case None => t
  }

  /** One sweep of the variable pattern over `s`, left to right. */
  function VarSub(s: string, d: Data): string
    decreases |s|
  {
    if s == [] then []
    else
      match VarRefAt(s)
      case Some(k) => VarReplacement(s[..k], d) + VarSub(s[k..], d)
      case None => [s[0]] + VarSub(s[1..], d)
  }

  /** One sweep of the code pattern over `s`, left to right; None when the
      evaluator raises on some region. */
  function CodeSub(s: string, d: Data, ev: Evaluator): Option<string>
    decreases |s|
  {
    if s == [] then Some([])
    else
      match CodeRefAt(s)
      case Some(k) =>
        (match ev(s[3..k - 1], d)
         case None => None
         case Some(v) =>
           match CodeSub(s[k..], d, ev)
           case None => None
           case Some(rest) => Some(v + rest))
      case None =>
        match CodeSub(s[1..], d, ev)
        case None => None
        case Some(rest) => Some([s[0]] + rest)
  }

  /** One pass of the loop in `expand`. */
  function Pass(s: string, d: Data, ev: Evaluator): Option<string> {
    CodeSub(VarSub(s, d), d, ev)
  }

  /** A string at which `expand` may stop: no `$` is left, a pass leaves it as
      it is, or it is longer than the guard. */
  predicate Settled(s: string, d: Data, ev: Evaluator) {
    '$' !in s || |s| > MaxLength || Pass(s, d, ev) == Some(s)
  }

  /** The loop of `expand` on a present string with the pass `pass`, allowed
      `fuel` more passes. */
  function Loop(s: string, pass: string -> Option<string>, fuel: nat): (r: Outcome)
    ensures r.Expanded? ==> r.text.Some?
    decreases fuel
  {
    if '$' !in s then Expanded(Some(s))
    else if fuel == 0 then Exhausted(s)
    else
      match pass(s)
      case None => Raised
      case Some(t) =>
        if |t| > MaxLength || t == s then Expanded(Some(t))
        else Loop(t, pass, fuel - 1)
  }

  /** The pass of `expand` against the store `d`. */
  function PassOf(d: Data, ev: Evaluator): string -> Option<string> {
    (t: string) => Pass(t, d, ev)
  }

  /** The loop of `expand` on a present string, allowed `fuel` more passes. */
  function ExpandLoop(s: string, d: Data, ev: Evaluator, fuel: nat): (r: Outcome)
    ensures r.Expanded? ==> r.text.Some?
  {
    Loop(s, PassOf(d, ev), fuel)
  }

  /** `expand(s, d)` with at most `fuel` passes; None expands to None. */
  function ExpandOf(s: Option<string>, d: Data, ev: Evaluator, fuel: nat): Outcome {
    match s
    case None => Expanded(None)
    case Some(t) => ExpandLoop(t, d, ev, fuel)
  }

  /** `expand`: the loop of the source, pass by pass. */
  method Expand(s: Option<string>, d: Data, ev: Evaluator, fuel: nat) returns (r: Outcome)
    ensures r == ExpandOf(s, d, ev, fuel)
    ensures s.None? ==> r == Expanded(None)
    ensures s.Some? && '$' !in s.value ==> r == Expanded(s)
    ensures r.Expanded? && s.Some? ==> r.text.Some? && Settled(r.text.value, d, ev)
  {
    if s.None? {
      return Expanded(None);
    }
    var cur := s.value;
    var left := fuel;
    while '$' in cur
      invariant ExpandLoop(cur, d, ev, left) == ExpandLoop(s.value, d, ev, fuel)
      decreases left
    {
      if left == 0 {
        return Exhausted(cur);
      }
      var olds := cur;
      var next := Pass(cur, d, ev);
      if next.None? {
        return Raised;
      }
      cur := next.value;
      if |cur| > MaxLength {
        return Expanded(Some(cur));
      }
      if cur == olds {
        return Expanded(Some(cur));
      }
      left := left - 1;
    }
    r := Expanded(Some(cur));
    ExpandStops(s.value, d, ev, fuel);
  }

  /** When the loop returns a text, that text has no `$`, or the last pass
      left it unchanged, or it is over the length guard. */
  lemma {:induction false} LoopStops(s: string, pass: string -> Option<string>, fuel: nat)
    ensures var r := Loop(s, pass, fuel);
            r.Expanded? ==> '$' !in r.text.value || |r.text.value| > MaxLength || pass(r.text.value) == r.text
    decreases fuel
  {
    if '$' in s && fuel > 0 && pass(s).Some? && !(|pass(s).value| > MaxLength || pass(s).value == s) {
      LoopStops(pass(s).value, pass, fuel - 1);
    }
  }

  /** A larger budget of passes does not change a result that the loop
      reached within the smaller one. */
  lemma {:induction false} LoopFuelMonotone(s: string, pass: string -> Option<string>, fuel: nat, more: nat)
    requires fuel <= more
    requires !Loop(s, pass, fuel).Exhausted?
    ensures Loop(s, pass, more) == Loop(s, pass, fuel)
    decreases fuel
  {
    if '$' in s && pass(s).Some? && !(|pass(s).value| > MaxLength || pass(s).value == s) {
      LoopFuelMonotone(pass(s).value, pass, fuel - 1, more - 1);
    }
  }

  /** When expansion returns a text, that text is settled: no `$` is left, or
      the last pass left it unchanged, or it is over the length guard. */
  lemma ExpandStops(s: string, d: Data, ev: Evaluator, fuel: nat)
    ensures ExpandLoop(s, d, ev, fuel).Expanded? ==> Settled(ExpandLoop(s, d, ev, fuel).text.value, d, ev)
  {
    LoopStops(s, PassOf(d, ev), fuel);
  }

  /** A larger budget of passes does not change a result that was reached
      within the smaller one: the budget only decides whether the loop is
      seen to finish. */
  lemma FuelMonotone(s: string, d: Data, ev: Evaluator, fuel: nat, more: nat)
    requires fuel <= more
    requires !ExpandLoop(s, d, ev, fuel).Exhausted?
    ensures ExpandLoop(s, d, ev, more) == ExpandLoop(s, d, ev, fuel)
  {
    LoopFuelMonotone(s, PassOf(d, ev), fuel, more);
  }

  /** One turn of the loop of `expand`: a pass that gives a new text within
      the guard hands it on with one pass less, and a pass that leaves the
      text as it is or goes over the guard ends the loop with its result. */
  lemma ExpandTurn(s: string, t: string, d: Data, ev: Evaluator, fuel: nat)
    requires '$' in s && fuel >= 1 && Pass(s, d, ev) == Some(t)
    ensures |t| <= MaxLength && t != s ==> ExpandLoop(s, d, ev, fuel) == ExpandLoop(t, d, ev, fuel - 1)
    ensures |t| > MaxLength || t == s ==> ExpandLoop(s, d, ev, fuel) == Expanded(Some(t))
  {
    assert PassOf(d, ev)(s) == Pass(s, d, ev);
  }

  /** Expanding a result again changes nothing, unless the first expansion
      was cut off by the length guard. */
  lemma ExpandIdempotent(s: string, d: Data, ev: Evaluator, fuel: nat, again: nat)
    requires ExpandLoop(s, d, ev, fuel).Expanded?
    requires |ExpandLoop(s, d, ev, fuel).text.value| <= MaxLength
    requires again >= 1
    ensures var t := ExpandLoop(s, d, ev, fuel).text.value;
            ExpandLoop(t, d, ev, again) == Expanded(Some(t))
  {
    ExpandStops(s, d, ev, fuel);
  }

  /** A stretch without `$` is copied through the variable sweep. */
  lemma {:induction false} VarSubLiteral(a: string, b: string, d: Data)
    requires '$' !in a
    ensures VarSub(a + b, d) == a + VarSub(b, d)
    decreases |a|
  {
    if a != [] {
      assert (a + b)[0] == a[0];
      assert VarRefAt(a + b) == None;
      assert (a + b)[1..] == a[1..] + b;
      VarSubLiteral(a[1..], b, d);
      assert [a[0]] + (a[1..] + VarSub(b, d)) == a + VarSub(b, d);
    } else {
      assert a + b == b;
    }
  }

  /** A string without `$` is left alone by the variable sweep. */
  lemma VarSubNoDollar(s: string, d: Data)
    requires '$' !in s
    ensures VarSub(s, d) == s
  {
    VarSubLiteral(s, [], d);
    assert s + [] == s;
  }

  /** A reference `${NAME}` (NAME not empty, without braces) at the front is
      replaced by the raw stored content of NAME, or kept verbatim when NAME
      has none; the sweep goes on after it without rescanning what it
      inserted. */
  lemma VarSubRef(name: string, b: string, d: Data)
    requires name != [] && forall i :: 0 <= i < |name| ==> !IsBrace(name[i])
    ensures VarSub("${" + name + "}" + b, d) ==
            (match GetVar(d, name) case Some(v) => v case None => "${" + name + "}") + VarSub(b, d)
  {
    var t := "${" + name + "}";
    var s := t + b;
    assert s[..|t|] == t;
    assert forall i :: 2 <= i < |t| - 1 ==> t[i] == name[i - 2];
    assert IsVarRef(s[..|t|]);
    assert VarRefAt(s) == Some(|t|);
    assert s[|t|..] == b;
    assert t[2..|t| - 1] == name;
  }

  /** A stretch without `$` is copied through the code sweep. */
  lemma {:induction false} CodeSubLiteral(a: string, b: string, d: Data, ev: Evaluator)
    requires '$' !in a
    ensures CodeSub(a + b, d, ev) == match CodeSub(b, d, ev) case None => None case Some(r) => Some(a + r)
    decreases |a|
  {
    if a != [] {
      var s := a + b;
      assert CodeRefAt(s).None? by {
        assert s[0] == a[0] && a[0] in a;
      }
      assert s[1..] == a[1..] + b;
      assert '$' !in a[1..] by {
        assert forall c :: c in a[1..] ==> c in a;
      }
      CodeSubLiteral(a[1..], b, d, ev);
      match CodeSub(b, d, ev)
      case None =>
      case Some(r) => assert [s[0]] + (a[1..] + r) == a + r;
    } else {
      assert a + b == b;
      match CodeSub(b, d, ev)
      case None =>
      case Some(r) => assert a + r == r;
    }
  }

  /** Where no `@` occurs there is no code region, and the code sweep is the
      identity. */
  lemma {:induction false} CodeSubNoAt(s: string, d: Data, ev: Evaluator)
    requires '@' !in s
    ensures CodeSub(s, d, ev) == Some(s)
    decreases |s|
  {
    if s != [] {
      assert CodeRefAt(s).None? by {
        if 4 <= |s| { assert s[2] in s; }
      }
      assert forall c :: c in s[1..] ==> c in s;
      CodeSubNoAt(s[1..], d, ev);
      assert [s[0]] + s[1..] == s;
    }
  }

  /** A region `${@code}` at the front (code at least one character, no newline,
      no `}` after its first character) is replaced by the evaluator's result
      for `code`; an exception of the evaluator is the exception of the sweep. */
  lemma CodeSubRef(code: string, b: string, d: Data, ev: Evaluator)
    requires code != []
    requires forall i :: 0 <= i < |code| ==> code[i] != '\n'
    requires forall i :: 1 <= i < |code| ==> code[i] != '}'
    ensures CodeSub("${@" + code + "}" + b, d, ev) ==
            match ev(code, d)
            case None => None
            case Some(v) => (match CodeSub(b, d, ev) case None => None case Some(r) => Some(v + r))
  {
    var t := "${@" + code + "}";
    var s := t + b;
    assert s[..|t|] == t;
    assert forall i :: 3 <= i < |t| - 1 ==> t[i] == code[i - 3];
    assert IsCodeRef(s[..|t|]);
    assert CodeRefAt(s) == Some(|t|);
    assert s[|t|..] == b;
    assert s[3..|t| - 1] == code;
  }

  /** A string without `$` is neither changed by a pass nor by expansion. */
  lemma PassNoDollar(s: string, d: Data, ev: Evaluator, fuel: nat)
    requires '$' !in s
    ensures Pass(s, d, ev) == Some(s)
    ensures ExpandLoop(s, d, ev, fuel) == Expanded(Some(s))
  {
    VarSubNoDollar(s, d);
    CodeSubLiteral(s, [], d, ev);
    assert s + [] == s;
  }
}
