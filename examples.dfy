/** The examples in the documentation of `bin/oe/data.py`, stated for every
    evaluator and every budget of passes large enough for them. */
module Examples {
  import opened Wrappers
  import opened Strings
  import opened VarStore
  import opened Expansion
  import opened Batch
  import opened Overrides

  // ------------------------------------------------------------ expansion

  /** The loop of `expand` when the first pass leaves no `$`. */
  lemma SettlesAfterOnePass(s: string, t: string, d: Data, ev: Evaluator, fuel: nat)
    requires fuel >= 1 && '$' in s
    requires Pass(s, d, ev) == Some(t) && '$' !in t
    ensures ExpandLoop(s, d, ev, fuel) == Expanded(Some(t))
  {
    var pass := PassOf(d, ev);
    assert pass(s) == Some(t);
    assert Loop(t, pass, fuel - 1) == Expanded(Some(t));
  }

  /** The loop of `expand` when the second pass leaves its text as it is or
      leaves no `$`. */
  lemma SettlesAfterTwoPasses(s: string, t: string, u: string, d: Data, ev: Evaluator, fuel: nat)
    requires fuel >= 2 && '$' in s && '$' in t
    requires Pass(s, d, ev) == Some(t) && t != s && |t| <= MaxLength
    requires Pass(t, d, ev) == Some(u) && (u == t || '$' !in u)
    ensures ExpandLoop(s, d, ev, fuel) == Expanded(Some(u))
  {
    assert PassOf(d, ev)(s) == Pass(s, d, ev) && PassOf(d, ev)(t) == Pass(t, d, ev);
    assert ExpandLoop(s, d, ev, fuel) == ExpandLoop(t, d, ev, fuel - 1);
    if u != t && |u| <= MaxLength {
      assert ExpandLoop(t, d, ev, fuel - 1) == ExpandLoop(u, d, ev, fuel - 2);
    }
  }

  /** The text of a reference to `name`. */
  function Ref(name: string): string {
    "${" + name + "}"
  }

  /** A name the variable pattern accepts between `${` and `}`. */
  predicate IsName(name: string) {
    name != [] && forall i :: 0 <= i < |name| ==> !IsBrace(name[i])
  }

  /** What the variable sweep puts in place of a reference to `name`. */
  function Lookup(d: Data, name: string): string {
    match GetVar(d, name)
    case Some(v) => v
    case None => Ref(name)
  }

  lemma RefFacts(name: string)
    ensures |Ref(name)| == |name| + 3
    ensures Ref(name)[0] == '$' && '$' in Ref(name)
    ensures Ref(name)[2..|Ref(name)| - 1] == name
    ensures forall c :: c in Ref(name) <==> c == '$' || c == '{' || c == '}' || c in name
  {
  }

  /** A reference at the front, in one sweep. */
  lemma VarSubFront(name: string, b: string, d: Data)
    requires IsName(name)
    ensures VarSub(Ref(name) + b, d) == Lookup(d, name) + VarSub(b, d)
  {
    VarSubRef(name, b, d);
  }

  /** A lone reference is swept to what it looks up. */
  lemma VarSubAlone(name: string, d: Data)
    requires IsName(name)
    ensures VarSub(Ref(name), d) == Lookup(d, name)
  {
    VarSubRef(name, [], d);
    assert Ref(name) + [] == Ref(name);
    assert VarSub([], d) == [];
  }

  /** One reference after a stretch without `$`, in one sweep. */
  lemma VarSubOneRef(a: string, name: string, b: string, d: Data)
    requires '$' !in a && IsName(name)
    ensures VarSub(a + Ref(name) + b, d) == a + Lookup(d, name) + VarSub(b, d)
  {
    var x := Ref(name) + b;
    assert a + Ref(name) + b == a + x;
    assert VarSub(a + x, d) == a + VarSub(x, d) by {
      VarSubLiteral(a, x, d);
    }
    assert VarSub(x, d) == Lookup(d, name) + VarSub(b, d) by {
      VarSubRef(name, b, d);
    }
  }

  /** A text without `}` holds no variable reference, and the sweep keeps it. */
  lemma {:induction false} VarSubWithoutClose(s: string, d: Data)
    requires '}' !in s
    ensures VarSub(s, d) == s
    decreases |s|
  {
    if s != [] {
      assert VarRefAt(s).None? by {
        if 2 <= |s| && s[0] == '$' && s[1] == '{' {
          var j := Scan(s, 2, {'{', '}'});
          assert j < |s| ==> s[j] in s;
        }
      }
      assert forall c :: c in s[1..] ==> c in s;
      VarSubWithoutClose(s[1..], d);
      assert [s[0]] + s[1..] == s;
    }
  }

  // One section per example: a lemma over arbitrary pieces, the facts about
  // the literal pieces of the example, and the example itself.

  /** `a${m}c` with `m` set to a text without `$` becomes `a`, the text, `c`
      in one pass. */
  lemma OneKnown(d: Data, ev: Evaluator, fuel: nat, a: string, m: string, v: string, c: string)
    requires fuel >= 1 && IsName(m) && GetVar(d, m) == Some(v)
    requires '$' !in a && '$' !in v && '$' !in c
    requires '@' !in a && '@' !in v && '@' !in c
    ensures ExpandLoop(a + Ref(m) + c, d, ev, fuel) == Expanded(Some(a + v + c))
  {
    RefFacts(m);
    VarSubOneRef(a, m, c, d);
    VarSubNoDollar(c, d);
    CodeSubNoAt(a + v + c, d, ev);
    SettlesAfterOnePass(a + Ref(m) + c, a + v + c, d, ev, fuel);
  }

  lemma MidPieces()
    ensures "vorher ${MID} dahinter" == "vorher " + Ref("MID") + " dahinter"
    ensures "vorher drin dahinter" == "vorher " + "drin" + " dahinter"
    ensures IsName("MID")
    ensures '$' !in "vorher " && '$' !in "drin" && '$' !in " dahinter"
    ensures '@' !in "vorher " && '@' !in "drin" && '@' !in " dahinter"
  {
  }

  /** `vorher ${MID} dahinter` with `MID = drin`. */
  lemma MidReplaced(d: Data, ev: Evaluator, fuel: nat)
    requires fuel >= 1
    requires GetVar(d, "MID") == Some("drin")
    ensures ExpandLoop("vorher ${MID} dahinter", d, ev, fuel) == Expanded(Some("vorher drin dahinter"))
  {
    MidPieces();
    OneKnown(d, ev, fuel, "vorher ", "MID", "drin", " dahinter");
  }

  /** `a${m}c${u}` with `m` set to a text without `$` and `u` unset becomes
      `a`, the text, `c${u}`, and stays so. */
  lemma KnownAndUnknown(d: Data, ev: Evaluator, fuel: nat, a: string, m: string, v: string, c: string, u: string)
    requires fuel >= 2
    requires IsName(m) && IsName(u)
    requires GetVar(d, m) == Some(v) && GetVar(d, u) == None
    requires '$' !in a && '$' !in v && '$' !in c
    requires '@' !in a && '@' !in v && '@' !in c && '@' !in u
    requires |a| + |v| + |c| + |u| + 3 <= MaxLength
    ensures ExpandLoop(a + Ref(m) + c + Ref(u), d, ev, fuel) == Expanded(Some(a + v + c + Ref(u)))
  {
    var s := a + Ref(m) + c + Ref(u);
    var t := a + v + c + Ref(u);
    KnownAndUnknownPass(d, ev, a, m, v, c, u);
    UnknownPass(d, ev, a + v + c, u);
    KnownAndUnknownMoves(a, m, v, c, u);
    SettlesAfterTwoPasses(s, t, t, d, ev, fuel);
  }

  lemma KnownAndUnknownPass(d: Data, ev: Evaluator, a: string, m: string, v: string, c: string, u: string)
    requires IsName(m) && IsName(u)
    requires GetVar(d, m) == Some(v) && GetVar(d, u) == None
    requires '$' !in a && '$' !in c
    requires '@' !in a && '@' !in v && '@' !in c && '@' !in u
    ensures Pass(a + Ref(m) + c + Ref(u), d, ev) == Some(a + v + c + Ref(u))
  {
    var ru := Ref(u);
    var s := a + Ref(m) + c + ru;
    var t := a + v + c + ru;
    assert VarSub(s, d) == t by {
      assert VarSub(ru, d) == ru by {
        VarSubAlone(u, d);
      }
      assert VarSub(c + ru, d) == c + ru by {
        VarSubLiteral(c, ru, d);
      }
      assert VarSub(Ref(m) + (c + ru), d) == v + (c + ru) by {
        VarSubFront(m, c + ru, d);
      }
      assert VarSub(a + (Ref(m) + (c + ru)), d) == a + (v + (c + ru)) by {
        VarSubLiteral(a, Ref(m) + (c + ru), d);
      }
      Assoc(a + Ref(m), c, ru);
      Assoc(a, Ref(m), c + ru);
      Assoc(a + v, c, ru);
      Assoc(a, v, c + ru);
    }
    assert CodeSub(t, d, ev) == Some(t) by {
      RefFacts(u);
      assert '@' !in a + v;
      CodeSubNoAtThree(a + v, c, ru, d, ev);
    }
    PassOfSweeps(s, t, t, d, ev);
  }


  /** A text whose only reference is to an unset name is left as it is. */
  lemma UnknownPass(d: Data, ev: Evaluator, a: string, u: string)
    requires IsName(u) && GetVar(d, u) == None
    requires '$' !in a && '@' !in a && '@' !in u
    ensures Pass(a + Ref(u), d, ev) == Some(a + Ref(u))
  {
    RefFacts(u);
    assert a + Ref(u) == a + Ref(u) + [];
    VarSubOneRef(a, u, [], d);
    CodeSubNoAt(a + Ref(u), d, ev);
  }

  lemma KnownAndUnknownMoves(a: string, m: string, v: string, c: string, u: string)
    requires '$' !in a && '$' !in v && '$' !in c
    ensures '$' in a + Ref(m) + c + Ref(u) && '$' in a + v + c + Ref(u)
    ensures a + v + c + Ref(u) != a + Ref(m) + c + Ref(u)
  {
    var s := a + Ref(m) + c + Ref(u);
    var t := a + v + c + Ref(u);
    assert s[|a|] == '$';
    assert t[|a + v + c|] == '$';
  }

  lemma UnknownPieces()
    ensures "vorher ${MID} dahinter ${UNKNOWN}" == "vorher " + Ref("MID") + " dahinter " + Ref("UNKNOWN")
    ensures "vorher drin dahinter ${UNKNOWN}" == "vorher " + "drin" + " dahinter " + Ref("UNKNOWN")
    ensures IsName("MID") && IsName("UNKNOWN")
    ensures '$' !in "vorher " && '$' !in "drin" && '$' !in " dahinter "
    ensures '@' !in "vorher " && '@' !in "drin" && '@' !in " dahinter " && '@' !in "UNKNOWN"
  {
    UnknownTexts();
    UnknownNames();
    UnknownChars("vorher ", "drin", " dahinter ", "UNKNOWN");
  }

  lemma UnknownTexts()
    ensures "vorher ${MID} dahinter ${UNKNOWN}" == "vorher " + Ref("MID") + " dahinter " + Ref("UNKNOWN")
    ensures "vorher drin dahinter ${UNKNOWN}" == "vorher " + "drin" + " dahinter " + Ref("UNKNOWN")
  {
  }

  lemma UnknownNames()
    ensures IsName("MID") && IsName("UNKNOWN")
  {
  }

  lemma UnknownChars(a: string, b: string, c: string, u: string)
    requires a == "vorher " && b == "drin" && c == " dahinter " && u == "UNKNOWN"
    ensures '$' !in a && '$' !in b && '$' !in c
    ensures '@' !in a && '@' !in b && '@' !in c && '@' !in u
  {
    assert forall i :: 0 <= i < |a| ==> a[i] in {'v', 'o', 'r', 'h', 'e', ' '};
    assert forall i :: 0 <= i < |b| ==> b[i] in {'d', 'r', 'i', 'n'};
    assert forall i :: 0 <= i < |c| ==> c[i] in {' ', 'd', 'a', 'h', 'i', 'n', 't', 'e', 'r'};
    assert forall i :: 0 <= i < |u| ==> u[i] in {'U', 'N', 'K', 'O', 'W'};
  }

  /** Unset references are kept as they are, set ones are replaced:
      `vorher ${MID} dahinter ${UNKNOWN}` with `MID = drin`. */
  lemma UnknownKeptVerbatim(d: Data, ev: Evaluator, fuel: nat)
    requires fuel >= 2
    requires GetVar(d, "MID") == Some("drin") && GetVar(d, "UNKNOWN") == None
    ensures ExpandLoop("vorher ${MID} dahinter ${UNKNOWN}", d, ev, fuel) ==
            Expanded(Some("vorher drin dahinter ${UNKNOWN}"))
  {
    UnknownPieces();
    KnownAndUnknown(d, ev, fuel, "vorher ", "MID", "drin", " dahinter ", "UNKNOWN");
  }

  /** A text with a `$` but no `}` and no `@` is given back as it is: the one
      pass it takes changes nothing. */
  lemma Unclosed(d: Data, ev: Evaluator, fuel: nat, s: string)
    requires fuel >= 1 && '$' in s && '}' !in s && '@' !in s
    ensures ExpandLoop(s, d, ev, fuel) == Expanded(Some(s))
  {
    VarSubWithoutClose(s, d);
    CodeSubNoAt(s, d, ev);
  }

  lemma UnclosedPieces()
    ensures '$' in "${UNKNOWN" && '}' !in "${UNKNOWN" && '@' !in "${UNKNOWN"
  {
    assert "${UNKNOWN"[0] == '$';
  }

  /** A syntax error gives the string back: `${UNKNOWN`. */
  lemma UnclosedReferenceKept(d: Data, ev: Evaluator, fuel: nat)
    requires fuel >= 1
    ensures ExpandLoop("${UNKNOWN", d, ev, fuel) == Expanded(Some("${UNKNOWN"))
  {
    UnclosedPieces();
    Unclosed(d, ev, fuel, "${UNKNOWN");
  }

  /** `${@code}` with brace-free code: the variable sweep sees a reference to
      the name `@code`, which is unset, and the code sweep puts the result of
      the code in its place. */
  lemma CodeEvaluated(d: Data, ev: Evaluator, fuel: nat, code: string, r: string)
    requires fuel >= 1 && code != []
    requires forall i :: 0 <= i < |code| ==> !IsBrace(code[i]) && code[i] != '\n'
    requires GetVar(d, "@" + code) == None
    requires ev(code, d) == Some(r) && '$' !in r
    ensures ExpandLoop("${@" + code + "}", d, ev, fuel) == Expanded(Some(r))
  {
    var s := "${@" + code + "}";
    var name := "@" + code;
    assert VarSub(s, d) == s by {
      assert IsName(name) by {
        assert forall i :: 1 <= i < |name| ==> name[i] == code[i - 1];
      }
      assert s == [] + Ref(name) + [];
      VarSubOneRef([], name, [], d);
      assert Lookup(d, name) == Ref(name);
      assert VarSub([], d) == [];
    }
    assert CodeSub(s, d, ev) == Some(r) by {
      CodeSubRef(code, [], d, ev);
      assert s == s + [];
      assert r + [] == r;
    }
    SettlesAfterOnePass(s, r, d, ev, fuel);
  }

  lemma CodeRegionPieces()
    ensures "${@ \"Test\"*3}" == "${@" + " \"Test\"*3" + "}"
    ensures "@ \"Test\"*3" == "@" + " \"Test\"*3"
    ensures forall i :: 0 <= i < |" \"Test\"*3"| ==> !IsBrace(" \"Test\"*3"[i]) && " \"Test\"*3"[i] != '\n'
    ensures '$' !in "TestTestTest"
  {
  }

  /** Embedded code is evaluated: `${@ "Test"*3}` when the code gives
      `TestTestTest` (and no variable is named like the region). */
  lemma CodeRegionEvaluated(d: Data, ev: Evaluator, fuel: nat)
    requires fuel >= 1
    requires GetVar(d, "@ \"Test\"*3") == None
    requires ev(" \"Test\"*3", d) == Some("TestTestTest")
    ensures ExpandLoop("${@ \"Test\"*3}", d, ev, fuel) == Expanded(Some("TestTestTest"))
  {
    CodeRegionPieces();
    CodeEvaluated(d, ev, fuel, " \"Test\"*3", "TestTestTest");
  }

  /** No character of `s` is a brace, a newline or a `$`. */
  predicate Plain(s: string) {
    forall i :: 0 <= i < |s| ==> !IsBrace(s[i]) && s[i] != '\n' && s[i] != '$'
  }

  /** In `${@pre${n}post}` the variable sweep finds no reference at the
      front (the `{` of the inner reference ends the name early), steps over
      `${@pre` and replaces the inner reference. */
  lemma InnerReference(d: Data, pre: string, n: string, v: string, post: string)
    requires Plain(pre) && Plain(post) && IsName(n) && GetVar(d, n) == Some(v)
    ensures VarSub("${@" + pre + Ref(n) + post + "}", d) == "${@" + (pre + v + post) + "}"
  {
    var s := "${@" + pre + Ref(n) + post + "}";
    InnerFront(pre, n, post, s);
    assert VarSub(s, d) == [s[0]] + VarSub(s[1..], d);
    InnerRest(d, pre, n, v, post);
    InnerJoin(pre, v, post);
  }

  /** The front of `${@pre${n}post}` is no variable reference. */
  lemma InnerFront(pre: string, n: string, post: string, s: string)
    requires Plain(pre) && IsName(n)
    requires s == "${@" + pre + Ref(n) + post + "}"
    ensures VarRefAt(s).None? && s[0] == '$'
    ensures s[1..] == "{@" + pre + Ref(n) + (post + "}")
  {
    var p := 4 + |pre|;
    assert s[p] == '{';
    assert forall k :: 2 <= k < p ==> !IsBrace(s[k]) by {
      forall k | 2 <= k < p ensures !IsBrace(s[k]) {
        if 3 <= k < p - 1 {
          assert s[k] == pre[k - 3];
        }
      }
    }
  }

  /** After the `$`, the sweep steps over `{@pre`, replaces `${n}` and copies
      the rest. */
  lemma InnerRest(d: Data, pre: string, n: string, v: string, post: string)
    requires Plain(pre) && Plain(post) && IsName(n) && GetVar(d, n) == Some(v)
    ensures VarSub("{@" + pre + Ref(n) + (post + "}"), d) == "{@" + pre + v + (post + "}")
  {
    var head := "{@" + pre;
    var tail := post + "}";
    assert '$' !in head by {
      assert forall k :: 2 <= k < |head| ==> head[k] == pre[k - 2];
    }
    VarSubOneRef(head, n, tail, d);
    assert '$' !in tail by {
      assert forall k :: 0 <= k < |post| ==> tail[k] == post[k];
    }
    VarSubNoDollar(tail, d);
  }

  lemma InnerJoin(pre: string, v: string, post: string)
    ensures ['$'] + ("{@" + pre + v + (post + "}")) == "${@" + (pre + v + post) + "}"
  {
  }

  /** `${@pre${n}post}`: the reference inside the code region is replaced
      first, then the code, with the value in it, is evaluated. */
  lemma ReferenceThenCode(d: Data, ev: Evaluator, fuel: nat, pre: string, n: string, v: string, post: string, r: string)
    requires fuel >= 1 && pre != []
    requires Plain(pre) && Plain(post) && IsName(n) && GetVar(d, n) == Some(v)
    requires forall i :: 0 <= i < |v| ==> !IsBrace(v[i]) && v[i] != '\n'
    requires ev(pre + v + post, d) == Some(r) && '$' !in r
    ensures ExpandLoop("${@" + pre + Ref(n) + post + "}", d, ev, fuel) == Expanded(Some(r))
  {
    var s := "${@" + pre + Ref(n) + post + "}";
    var code := pre + v + post;
    InnerReference(d, pre, n, v, post);
    assert forall i :: 0 <= i < |code| ==> !IsBrace(code[i]) && code[i] != '\n' by {
      forall i | 0 <= i < |code| ensures !IsBrace(code[i]) && code[i] != '\n' {
        if i < |pre| {
          assert code[i] == pre[i];
        } else if i < |pre| + |v| {
          assert code[i] == v[i - |pre|];
        } else {
          assert code[i] == post[i - |pre| - |v|];
        }
      }
    }
    assert "${@" + code + "}" == "${@" + code + "}" + [];
    CodeSubRef(code, [], d, ev);
    assert r + [] == r;
    assert s[0] == '$';
    SettlesAfterOnePass(s, r, d, ev, fuel);
  }

  lemma InsidePieces()
    ensures "${@ hex(0x1000000+${START}) }" == "${@" + " hex(0x1000000+" + Ref("START") + ") " + "}"
    ensures " hex(0x1000000+0x4000) " == " hex(0x1000000+" + "0x4000" + ") "
    ensures Plain(" hex(0x1000000+") && Plain(") ") && IsName("START")
    ensures forall i :: 0 <= i < |"0x4000"| ==> !IsBrace("0x4000"[i]) && "0x4000"[i] != '\n'
    ensures '$' !in "0x1004000"
  {
  }

  /** A reference inside embedded code is replaced before the code runs:
      `${@ hex(0x1000000+${START}) }` with `START = 0x4000`, when the code
      then gives `0x1004000`. */
  lemma ReferenceInsideCode(d: Data, ev: Evaluator, fuel: nat)
    requires fuel >= 1
    requires GetVar(d, "START") == Some("0x4000")
    requires ev(" hex(0x1000000+0x4000) ", d) == Some("0x1004000")
    ensures ExpandLoop("${@ hex(0x1000000+${START}) }", d, ev, fuel) == Expanded(Some("0x1004000"))
  {
    InsidePieces();
    ReferenceThenCode(d, ev, fuel, " hex(0x1000000+", "START", "0x4000", ") ", "0x1004000");
  }

  /** `${sys}` with `sys = ${arch}c${os}`: the first pass puts the raw
      content of `sys` in place, the second one resolves the references in
      it. */
  lemma Chain(d: Data, ev: Evaluator, fuel: nat, sys: string, arch: string, c: string, os: string, va: string, vo: string)
    requires fuel >= 2
    requires IsName(sys) && IsName(arch) && IsName(os)
    requires GetVar(d, sys) == Some(Ref(arch) + c + Ref(os))
    requires GetVar(d, arch) == Some(va) && GetVar(d, os) == Some(vo)
    requires '$' !in c && '$' !in va && '$' !in vo
    requires '@' !in arch && '@' !in c && '@' !in os && '@' !in va && '@' !in vo
    requires |arch| + |c| + |os| + 6 <= MaxLength
    ensures ExpandLoop(Ref(sys), d, ev, fuel) == Expanded(Some(va + c + vo))
  {
    var w := Ref(arch) + c + Ref(os);
    ChainFirstPass(d, ev, sys, w);
    ChainSecondPass(d, ev, arch, c, os, va, vo);
    ChainMoves(sys, arch, c, os);
    SettlesAfterTwoPasses(Ref(sys), w, va + c + vo, d, ev, fuel);
  }

  lemma ChainFirstPass(d: Data, ev: Evaluator, sys: string, w: string)
    requires IsName(sys) && GetVar(d, sys) == Some(w) && '@' !in w
    ensures Pass(Ref(sys), d, ev) == Some(w)
  {
    assert VarSub(Ref(sys), d) == w by {
      VarSubAlone(sys, d);
    }
    assert CodeSub(w, d, ev) == Some(w) by {
      CodeSubNoAt(w, d, ev);
    }
  }

  lemma ChainSecondPass(d: Data, ev: Evaluator, arch: string, c: string, os: string, va: string, vo: string)
    requires IsName(arch) && IsName(os)
    requires GetVar(d, arch) == Some(va) && GetVar(d, os) == Some(vo)
    requires '$' !in c && '@' !in va && '@' !in c && '@' !in vo
    ensures Pass(Ref(arch) + c + Ref(os), d, ev) == Some(va + c + vo)
  {
    var s := Ref(arch) + c + Ref(os);
    var m := va + c + vo;
    assert VarSub(s, d) == m by {
      VarSubTwoRefs(arch, c, os, d);
    }
    assert CodeSub(m, d, ev) == Some(m) by {
      CodeSubNoAtThree(va, c, vo, d, ev);
    }
    PassOfSweeps(s, m, m, d, ev);
  }

  /** Two references around a stretch without `$`, in one sweep. */
  lemma VarSubTwoRefs(x: string, c: string, y: string, d: Data)
    requires IsName(x) && IsName(y) && '$' !in c
    ensures VarSub(Ref(x) + c + Ref(y), d) == Lookup(d, x) + c + Lookup(d, y)
  {
    var ry := Ref(y);
    assert VarSub(ry, d) == Lookup(d, y) by {
      VarSubAlone(y, d);
    }
    assert VarSub(c + ry, d) == c + Lookup(d, y) by {
      VarSubLiteral(c, ry, d);
    }
    assert VarSub(Ref(x) + (c + ry), d) == Lookup(d, x) + (c + Lookup(d, y)) by {
      VarSubFront(x, c + ry, d);
    }
    Assoc(Ref(x), c, ry);
    Assoc(Lookup(d, x), c, Lookup(d, y));
  }

  /** A pass is the variable sweep followed by the code sweep. */
  lemma PassOfSweeps(s: string, m: string, t: string, d: Data, ev: Evaluator)
    requires VarSub(s, d) == m && CodeSub(m, d, ev) == Some(t)
    ensures Pass(s, d, ev) == Some(t)
  {
  }

  /** The code sweep leaves three pieces without `@` as they are. */
  lemma CodeSubNoAtThree(x: string, y: string, z: string, d: Data, ev: Evaluator)
    requires '@' !in x && '@' !in y && '@' !in z
    ensures CodeSub(x + y + z, d, ev) == Some(x + y + z)
  {
    CodeSubNoAt(x + y + z, d, ev);
  }

  lemma ChainMoves(sys: string, arch: string, c: string, os: string)
    requires IsName(sys)
    ensures '$' in Ref(sys) && '$' in Ref(arch) + c + Ref(os)
    ensures Ref(arch) + c + Ref(os) != Ref(sys)
  {
    var w := Ref(arch) + c + Ref(os);
    var s := Ref(sys);
    var k := |arch| + 2;
    assert w[0] == '$' && s[0] == '$';
    assert w[k] == '}';
    if |w| == |s| {
      assert 2 <= k < |s| - 1;
      assert s[k] == sys[k - 2];
      assert s[k] != w[k];
    }
  }

  lemma ChainPieces()
    ensures "${SYS}" == Ref("SYS") && "${ARCH}-${OS}" == Ref("ARCH") + "-" + Ref("OS")
    ensures "arm-linux" == "arm" + "-" + "linux"
    ensures IsName("SYS") && IsName("ARCH") && IsName("OS")
    ensures '$' !in "-" && '$' !in "arm" && '$' !in "linux"
    ensures '@' !in "ARCH" && '@' !in "-" && '@' !in "OS" && '@' !in "arm" && '@' !in "linux"
  {
  }

  /** Recursive definitions: `${SYS}` with `SYS = ${ARCH}-${OS}`,
      `ARCH = arm` and `OS = linux`. */
  lemma ChainResolves(d: Data, ev: Evaluator, fuel: nat)
    requires fuel >= 2
    requires GetVar(d, "ARCH") == Some("arm") && GetVar(d, "OS") == Some("linux")
    requires GetVar(d, "SYS") == Some("${ARCH}-${OS}")
    ensures ExpandLoop("${SYS}", d, ev, fuel) == Expanded(Some("arm-linux"))
  {
    ChainPieces();
    Chain(d, ev, fuel, "SYS", "ARCH", "-", "OS", "arm", "linux");
  }

  /** Two names that refer to each other: the passes alternate between the
      two references and never settle. */
  lemma Mutual(d: Data, ev: Evaluator, fuel: nat, a: string, b: string)
    requires IsName(a) && IsName(b) && a != b
    requires '@' !in a && '@' !in b && |a| + 3 <= MaxLength && |b| + 3 <= MaxLength
    requires GetVar(d, a) == Some(Ref(b)) && GetVar(d, b) == Some(Ref(a))
    ensures ExpandLoop(Ref(a), d, ev, fuel).Exhausted?
  {
    RefFacts(a);
    RefFacts(b);
    var pass := PassOf(d, ev);
    assert pass(Ref(a)) == Some(Ref(b)) by {
      ChainFirstPass(d, ev, a, Ref(b));
    }
    assert pass(Ref(b)) == Some(Ref(a)) by {
      ChainFirstPass(d, ev, b, Ref(a));
    }
    Alternating(pass, Ref(a), Ref(b), fuel);
  }

  /** A pass that swaps two different texts holding a `$` keeps the loop
      going until the budget runs out. */
  lemma {:induction false} Alternating(pass: string -> Option<string>, x: string, y: string, fuel: nat)
    requires '$' in x && '$' in y && x != y && |x| <= MaxLength && |y| <= MaxLength
    requires pass(x) == Some(y) && pass(y) == Some(x)
    ensures Loop(x, pass, fuel).Exhausted?
    decreases fuel
  {
    if fuel > 0 {
      Alternating(pass, y, x, fuel - 1);
    }
  }

  lemma MutualPieces()
    ensures "${A}" == Ref("A") && "${B}" == Ref("B")
    ensures IsName("A") && IsName("B") && "A" != "B" && '@' !in "A" && '@' !in "B"
  {
  }

  /** `A = ${B}` and `B = ${A}`: `expand('${A}')` loops for ever in the
      source; here every budget of passes runs out. */
  lemma MutualReferenceNeverSettles(d: Data, ev: Evaluator, fuel: nat)
    requires GetVar(d, "A") == Some("${B}") && GetVar(d, "B") == Some("${A}")
    ensures ExpandLoop("${A}", d, ev, fuel).Exhausted?
  {
    MutualPieces();
    Mutual(d, ev, fuel, "A", "B");
  }

  /** `n` copies of `x` in a row. */
  function Copies(x: string, n: nat): string
    decreases n
  {
    if n == 0 then [] else x + Copies(x, n - 1)
  }

  function Pow2(k: nat): nat
    decreases k
  {
    if k == 0 then 1 else 2 * Pow2(k - 1)
  }

  lemma {:induction false} Pow2Grows(j: nat, k: nat)
    requires j <= k
    ensures Pow2(j) <= Pow2(k)
    decreases k
  {
    if j < k {
      Pow2Grows(j, k - 1);
    }
  }

  lemma {:induction false} CopiesFacts(x: string, n: nat)
    ensures |Copies(x, n)| == n * |x|
    ensures forall c :: c in Copies(x, n) ==> c in x
    ensures n >= 1 && x != [] ==> Copies(x, n)[0] == x[0]
    decreases n
  {
    if n > 0 {
      CopiesFacts(x, n - 1);
      assert |x| + (n - 1) * |x| == n * |x|;
    }
  }

  /** A sweep `f` that turns a front `x` into `xx` doubles a row of `x`. */
  lemma {:induction false} CopiesDouble(f: string -> string, x: string, n: nat)
    requires f([]) == []
    requires forall r :: f(x + r) == x + x + f(r)
    ensures f(Copies(x, n)) == Copies(x, 2 * n)
    decreases n
  {
    if n > 0 {
      var r, rr := Copies(x, n - 1), Copies(x, 2 * n - 2);
      CopiesDouble(f, x, n - 1);
      assert f(x + r) == x + x + rr;
      CopiesTwo(x, 2 * n);
      Assoc(x, x, rr);
    }
  }

  lemma CopiesTwo(x: string, m: nat)
    requires m >= 2
    ensures Copies(x, m) == x + (x + Copies(x, m - 2))
  {
    assert Copies(x, m - 1) == x + Copies(x, m - 2);
  }

  lemma Twice(n: nat, k: nat, p: nat)
    ensures (2 * n) * k == 2 * (n * k)
    ensures n * k * (2 * p) == (2 * n) * k * p
  {
  }

  lemma Assoc(x: string, y: string, z: string)
    ensures x + (y + z) == x + y + z
  {
  }

  /** `a = ${a}${a}` doubles the text on every pass: the length guard stops
      the loop at the first pass that leaves more than `MaxLength`
      characters, references and all. */
  lemma Runaway(d: Data, ev: Evaluator, fuel: nat, a: string, x: string, n: nat)
    requires IsName(a) && '@' !in a && x == Ref(a) && GetVar(d, a) == Some(x + x)
    requires n >= 1 && fuel >= 1
    requires n * |x| <= MaxLength
    requires n * |x| * Pow2(fuel) > MaxLength
    ensures ExpandLoop(Copies(x, n), d, ev, fuel).Expanded?
    ensures var t := ExpandLoop(Copies(x, n), d, ev, fuel).text.value;
            MaxLength < |t| <= 2 * MaxLength && '$' in t
  {
    var pass := PassOf(d, ev);
    forall m: nat | m >= 1
      ensures pass(Copies(x, m)) == Some(Copies(x, 2 * m))
    {
      RunawayPass(d, ev, a, x, m);
    }
    RefFacts(a);
    Doubling(pass, x, n, fuel);
  }

  /** The loop on a row of `n` copies of `x`, for a pass that doubles every
      row: it doubles until the row is over the guard. */
  lemma {:induction false} Doubling(pass: string -> Option<string>, x: string, n: nat, fuel: nat)
    requires |x| >= 1 && x[0] == '$'
    requires forall m: nat :: m >= 1 ==> pass(Copies(x, m)) == Some(Copies(x, 2 * m))
    requires n >= 1 && fuel >= 1
    requires n * |x| <= MaxLength
    requires n * |x| * Pow2(fuel) > MaxLength
    ensures Loop(Copies(x, n), pass, fuel).Expanded?
    ensures var t := Loop(Copies(x, n), pass, fuel).text.value;
            MaxLength < |t| <= 2 * MaxLength && '$' in t
    decreases fuel
  {
    var s := Copies(x, n);
    var t := Copies(x, 2 * n);
    CopiesFacts(x, n);
    CopiesFacts(x, 2 * n);
    Twice(n, |x|, 1);
    assert s[0] == '$' && t[0] == '$' && |t| != |s|;
    assert pass(s) == Some(t);
    if |t| <= MaxLength {
      RunawayBudget(fuel, n, |x|);
      Doubling(pass, x, 2 * n, fuel - 1);
    }
  }

  /** A row short enough for one more doubling still needs more than the
      passes left after it. */
  lemma RunawayBudget(fuel: nat, n: nat, k: nat)
    requires fuel >= 1 && 2 * (n * k) <= MaxLength && n * k * Pow2(fuel) > MaxLength
    ensures fuel >= 2 && (2 * n) * k <= MaxLength && (2 * n) * k * Pow2(fuel - 1) > MaxLength
  {
    var P := Pow2(fuel - 1);
    assert Pow2(fuel) == 2 * P;
    Twice(n, k, P);
  }

  /** One pass of the runaway: the row of `n` references becomes one of `2n`. */
  lemma RunawayPass(d: Data, ev: Evaluator, a: string, x: string, n: nat)
    requires IsName(a) && '@' !in a && x == Ref(a) && GetVar(d, a) == Some(x + x)
    requires n >= 1
    ensures Pass(Copies(x, n), d, ev) == Some(Copies(x, 2 * n))
    ensures |Copies(x, 2 * n)| == 2 * (n * |x|) && |Copies(x, n)| == n * |x| && |x| >= 3
    ensures '$' in Copies(x, n) && '$' in Copies(x, 2 * n)
    ensures Copies(x, 2 * n) != Copies(x, n)
  {
    RefFacts(a);
    CopiesFacts(x, n);
    CopiesFacts(x, 2 * n);
    Twice(n, |x|, 1);
    var f := (s: string) => VarSub(s, d);
    forall r: string
      ensures f(x + r) == x + x + f(r)
    {
      VarSubFront(a, r, d);
    }
    assert f([]) == [];
    CopiesDouble(f, x, n);
    assert '@' !in Copies(x, 2 * n);
    CodeSubNoAt(Copies(x, 2 * n), d, ev);
    assert Copies(x, n)[0] == '$' && Copies(x, 2 * n)[0] == '$';
  }

  lemma RunawayPieces()
    ensures "${A}" == Copies(Ref("A"), 1) && "${A}${A}" == Ref("A") + Ref("A")
    ensures IsName("A") && '@' !in "A" && |Ref("A")| == 4 && Pow2(10) == 1024
  {
  }

  /** `A = ${A}${A}`: `${A}` doubles on every pass, and the length guard ends
      the loop at the tenth pass. */
  lemma RunawayStoppedByGuard(d: Data, ev: Evaluator, fuel: nat)
    requires GetVar(d, "A") == Some("${A}${A}") && fuel >= 10
    ensures ExpandLoop("${A}", d, ev, fuel).Expanded?
    ensures var t := ExpandLoop("${A}", d, ev, fuel).text.value;
            MaxLength < |t| <= 2 * MaxLength && '$' in t
  {
    RunawayPieces();
    Pow2Grows(10, fuel);
    Runaway(d, ev, fuel, "A", Ref("A"), 1);
  }

  // ------------------------------------------------------------ expandData

  /** One name whose content is `a${n}c`, expanded against a separate read
      store in which `n` is set. */
  lemma BatchOneName(to: Data, from: Data, key: string, a: string, n: string, v: string, c: string, ev: Evaluator, fuel: nat)
    requires fuel >= 1 && IsName(n)
    requires GetVar(to, key) == Some(a + Ref(n) + c) && GetVar(from, n) == Some(v)
    requires '$' !in a && '$' !in v && '$' !in c
    requires '@' !in a && '@' !in v && '@' !in c
    ensures ExpandDataSpec(to, [key], Some(from), ev, fuel) == (SetVarIn(to, key, a + v + c), Success)
  {
    assert [key][..0] == [];
    OneKnown(from, ev, fuel, a, n, v, c);
  }

  lemma BatchPieces()
    ensures "dl_dir is ${DL_DIR}" == "dl_dir is " + Ref("DL_DIR") + ""
    ensures "dl_dir is /path/to/whatever" == "dl_dir is " + "/path/to/whatever" + ""
    ensures IsName("DL_DIR")
    ensures '$' !in "dl_dir is " && '$' !in "/path/to/whatever" && '$' !in ""
    ensures '@' !in "dl_dir is " && '@' !in "/path/to/whatever" && '@' !in ""
  {
  }

  /** `dlmsg = dl_dir is ${DL_DIR}` in the altered store and
      `DL_DIR = /path/to/whatever` in the read store. */
  lemma ExpandDataExample(to: Data, from: Data, ev: Evaluator, fuel: nat)
    requires to == SetVarIn(Init(), "dlmsg", "dl_dir is ${DL_DIR}")
    requires from == SetVarIn(Init(), "DL_DIR", "/path/to/whatever")
    requires fuel >= 1
    ensures var r := ExpandDataSpec(to, ["dlmsg"], Some(from), ev, fuel);
            r.1 == Success && GetVar(r.0, "dlmsg") == Some("dl_dir is /path/to/whatever") &&
            r.0.Keys == {"dlmsg"}
  {
    BatchPieces();
    BatchOneName(to, from, "dlmsg", "dl_dir is ", "DL_DIR", "/path/to/whatever", "", ev, fuel);
  }

  // ------------------------------------------------------------ update_data

  /** `update_data` on a store in which only `s` has helpers: `OVERRIDES` has
      no reference in it, so it gives the tags as it is; the whole run is the
      turn of `s`, followed by the deletion of the helpers it used. */
  lemma UpdateOneName(d: Data, keys: seq<string>, ev: Evaluator, fuel: nat, ov: string, s: string)
    requires IsKeyOrder(keys, d)
    requires GetVar(d, "OVERRIDES") == Some(ov) && ov != "" && '$' !in ov
    requires s in d
    requires forall k :: k in d && k != s ==> Inert(d, k, Split(ov, ':')) && !IsHelperOf(s, k)
    requires var used := KeyConsumed(d, s, Split(ov, ':'));
             forall i, j :: 0 <= i < j < |used| ==> used[i] != used[j]
    ensures var tags := Split(ov, ':');
            UpdateDataSpec(d, keys, ev, fuel) ==
              (SetContent(d, s, ResolvedContent(d, s, tags)) - (set h | h in KeyConsumed(d, s, tags)), Success)
  {
    var tags := Split(ov, ':');
    PassNoDollar(ov, d, ev, fuel);
    assert ExpandOf(GetVar(d, "OVERRIDES"), d, ev, fuel) == Expanded(Some(ov));
    ResolveSingleKey(d, keys, tags, s);
    ResolveKeyEffect(Progress(d, []), s, tags);
    var used := KeyConsumed(d, s, tags);
    var q := ResolveKeys(Progress(d, []), keys, tags);
    assert q == Progress(SetContent(d, s, ResolvedContent(d, s, tags)), [] + used);
    assert [] + used == used;
    KeyConsumedMeaning(d, s, tags);
    DeleteAllEffect(q.data, q.consumed);
  }

  /** The line deletion on a single line that contains the pattern leaves
      nothing. */
  lemma SingleLineDropped(text: string, pattern: string)
    requires '\n' !in text && Contains(text, pattern)
    ensures FilterLinesOf(text, pattern) == ""
  {
    SplitNoSeparator(text, '\n');
    FilterLinesMeaning(text, pattern);
  }

  /** The whole run with the stores of the doctest of `update_data`: one
      name and its helpers, and every other name without helpers. */
  predicate OnlyTestHasHelpers(d: Data, tags: seq<string>) {
    "TEST" in d &&
    forall k :: k in d && k != "TEST" ==> Inert(d, k, tags) && !IsHelperOf("TEST", k)
  }

  /** `TEST` has no append, prepend or delete helper. */
  predicate NoEdits(d: Data) {
    GetVar(d, "TEST_append") == None && GetVar(d, "TEST_prepend") == None && GetVar(d, "TEST_delete") == None
  }

  /** The helper names of `TEST` spelled out. */
  lemma TestHelpers()
    ensures Helper("TEST", "arm") == "TEST_arm" && Helper("TEST", "ramses") == "TEST_ramses"
    ensures Helper("TEST", "local") == "TEST_local" && Helper("TEST", "append") == "TEST_append"
    ensures Helper("TEST", "prepend") == "TEST_prepend" && Helper("TEST", "delete") == "TEST_delete"
  {
  }

  /** `a:b:c` splits into its three separator-free pieces. */
  lemma SplitThree(s: string, a: string, b: string, c: string, sep: char)
    requires s == a + [sep] + b + [sep] + c
    requires sep !in a && sep !in b && sep !in c
    ensures Split(s, sep) == [a, b, c]
  {
    var rest := b + [sep] + c;
    assert Split(rest, sep) == [b, c] by {
      SplitNoSeparator(c, sep);
      SplitFirst(b, c, sep);
    }
    assert s == a + [sep] + rest;
    assert Split(s, sep) == [a] + Split(rest, sep) by {
      SplitFirst(a, rest, sep);
    }
  }

  /** What the run of `UpdateOneName` means for the name `s`: its new
      content, and the names left. */
  lemma UpdateOneNameFacts(d: Data, keys: seq<string>, ev: Evaluator, fuel: nat, ov: string, s: string,
                           tags: seq<string>, c: Option<string>, used: seq<string>)
    requires IsKeyOrder(keys, d)
    requires GetVar(d, "OVERRIDES") == Some(ov) && ov != "" && '$' !in ov && Split(ov, ':') == tags
    requires s in d
    requires forall k :: k in d && k != s ==> Inert(d, k, tags) && !IsHelperOf(s, k)
    requires ResolvedContent(d, s, tags) == c && KeyConsumed(d, s, tags) == used
    requires forall i, j :: 0 <= i < j < |used| ==> used[i] != used[j]
    ensures var r := UpdateDataSpec(d, keys, ev, fuel);
            r.1 == Success && GetVar(r.0, s) == c && r.0.Keys == d.Keys - (set h | h in used)
  {
    UpdateOneName(d, keys, ev, fuel, ov, s);
    SetContentFacts(d, s, c);
    KeyConsumedMeaning(d, s, tags);
  }

  /** A turn with one tag whose helper holds `w`, and no edits. */
  lemma OneTagTurn(d: Data, s: string, tag: string, w: string)
    requires GetVar(d, Helper(s, tag)) == Some(w) && w != ""
    requires !Truthy(GetVar(d, Helper(s, "append"))) && !Truthy(GetVar(d, Helper(s, "prepend")))
    requires !Truthy(GetVar(d, Helper(s, "delete")))
    ensures ResolvedContent(d, s, [tag]) == Some(w)
    ensures KeyConsumed(d, s, [tag]) == [Helper(s, tag)]
  {
    assert [tag][..0] == [];
    assert TagsConsumed(d, s, [tag]) == [Helper(s, tag)];
  }

  /** A turn with three tags whose first helper is empty and whose other two
      hold `w2` and `w3`, and no edits: the last tag wins, the last two
      helpers are used. */
  lemma LastOfThreeTurn(d: Data, s: string, t1: string, t2: string, t3: string, w2: string, w3: string)
    requires !Truthy(GetVar(d, Helper(s, t1)))
    requires GetVar(d, Helper(s, t2)) == Some(w2) && w2 != ""
    requires GetVar(d, Helper(s, t3)) == Some(w3) && w3 != ""
    requires !Truthy(GetVar(d, Helper(s, "append"))) && !Truthy(GetVar(d, Helper(s, "prepend")))
    requires !Truthy(GetVar(d, Helper(s, "delete")))
    ensures ResolvedContent(d, s, [t1, t2, t3]) == Some(w3)
    ensures KeyConsumed(d, s, [t1, t2, t3]) == [Helper(s, t2), Helper(s, t3)]
  {
    var tags := [t1, t2, t3];
    assert tags[..2] == [t1, t2] && [t1, t2][..1] == [t1] && [t1][..0] == [];
    assert TagsConsumed(d, s, [t1]) == [];
    assert TagsConsumed(d, s, [t1, t2]) == [Helper(s, t2)];
  }

  /** No tag helper of `s` is set. */
  predicate Untagged(d: Data, s: string, tags: seq<string>) {
    forall j :: 0 <= j < |tags| ==> !Truthy(GetVar(d, Helper(s, tags[j])))
  }

  /** A turn with no tag and only an append. */
  lemma AppendTurn(d: Data, s: string, tags: seq<string>, v: string, app: string)
    requires Untagged(d, s, tags) && GetVar(d, s) == Some(v)
    requires GetVar(d, Helper(s, "append")) == Some(app) && app != ""
    requires !Truthy(GetVar(d, Helper(s, "prepend"))) && !Truthy(GetVar(d, Helper(s, "delete")))
    ensures ResolvedContent(d, s, tags) == Some(v + app)
    ensures KeyConsumed(d, s, tags) == [Helper(s, "append")]
  {
    NoTagApplies(d, s, tags);
  }

  /** A turn with no tag and only a prepend. */
  lemma PrependTurn(d: Data, s: string, tags: seq<string>, v: string, pre: string)
    requires Untagged(d, s, tags) && GetVar(d, s) == Some(v)
    requires GetVar(d, Helper(s, "prepend")) == Some(pre) && pre != ""
    requires !Truthy(GetVar(d, Helper(s, "append"))) && !Truthy(GetVar(d, Helper(s, "delete")))
    ensures ResolvedContent(d, s, tags) == Some(pre + v)
    ensures KeyConsumed(d, s, tags) == [Helper(s, "prepend")]
  {
    NoTagApplies(d, s, tags);
  }

  /** A turn with no tag and only a line deletion, on a non-empty content. */
  lemma DeleteTurn(d: Data, s: string, tags: seq<string>, v: string, del: string)
    requires Untagged(d, s, tags) && GetVar(d, s) == Some(v) && v != ""
    requires GetVar(d, Helper(s, "delete")) == Some(del) && del != ""
    requires !Truthy(GetVar(d, Helper(s, "append"))) && !Truthy(GetVar(d, Helper(s, "prepend")))
    ensures ResolvedContent(d, s, tags) == Some(FilterLinesOf(v, Pattern(del)))
    ensures KeyConsumed(d, s, tags) == [Helper(s, "delete")]
  {
    NoTagApplies(d, s, tags);
  }

  /** A single used helper, as a set. */
  lemma OneUsed(used: seq<string>, h: string)
    requires used == [h]
    ensures (set x | x in used) == {h} && |used| == 1
  {
  }

  lemma TwoUsed(used: seq<string>)
    requires used == ["TEST_ramses", "TEST_local"]
    ensures (set h | h in used) == {"TEST_ramses", "TEST_local"}
    ensures forall i, j :: 0 <= i < j < |used| ==> used[i] != used[j]
  {
  }

  /** `OVERRIDES = arm`: `TEST` takes the value of `TEST_arm`, which is then
      deleted. */
  lemma OverrideSelectsTag(d: Data, keys: seq<string>, ev: Evaluator, fuel: nat)
    requires IsKeyOrder(keys, d)
    requires GetVar(d, "OVERRIDES") == Some("arm") && OnlyTestHasHelpers(d, ["arm"])
    requires GetVar(d, "TEST") == Some("original") && GetVar(d, "TEST_arm") == Some("target")
    requires NoEdits(d)
    ensures var r := UpdateDataSpec(d, keys, ev, fuel);
            r.1 == Success && GetVar(r.0, "TEST") == Some("target") && r.0.Keys == d.Keys - {"TEST_arm"}
  {
    var ov := GetVar(d, "OVERRIDES").value;
    OneTagFacts(ov);
    SelectTurn(d);
    var used := KeyConsumed(d, "TEST", ["arm"]);
    OneUsed(used, "TEST_arm");
    UpdateOneNameFacts(d, keys, ev, fuel, ov, "TEST", ["arm"], Some("target"), used);
  }

  /** The turn of `TEST` in that step. */
  lemma SelectTurn(d: Data)
    requires GetVar(d, "TEST_arm") == Some("target") && NoEdits(d)
    ensures ResolvedContent(d, "TEST", ["arm"]) == Some("target")
    ensures KeyConsumed(d, "TEST", ["arm"]) == ["TEST_arm"]
  {
    TestHelpers();
    var w := GetVar(d, "TEST_arm").value;
    OneTagTurn(d, "TEST", "arm", w);
  }

  /** `OVERRIDES = arm:ramses:local`: of the non-empty `TEST_ramses` and
      `TEST_local` the last tag wins, and both are deleted. */
  lemma OverrideLastTagWins(d: Data, keys: seq<string>, ev: Evaluator, fuel: nat)
    requires IsKeyOrder(keys, d)
    requires GetVar(d, "OVERRIDES") == Some("arm:ramses:local") && OnlyTestHasHelpers(d, ThreeTags())
    requires GetVar(d, "TEST") == Some("original") && GetVar(d, "TEST_arm") == None
    requires GetVar(d, "TEST_ramses") == Some("machine") && GetVar(d, "TEST_local") == Some("local")
    requires NoEdits(d)
    ensures var r := UpdateDataSpec(d, keys, ev, fuel);
            r.1 == Success && GetVar(r.0, "TEST") == Some("local") &&
            r.0.Keys == d.Keys - {"TEST_ramses", "TEST_local"}
  {
    var ov := GetVar(d, "OVERRIDES").value;
    ThreeTagsFacts(ov);
    LastTagTurn(d);
    var used := KeyConsumed(d, "TEST", ThreeTags());
    TwoUsed(used);
    UpdateOneNameFacts(d, keys, ev, fuel, ov, "TEST", ThreeTags(), Some("local"), used);
  }

  /** The turn of `TEST` in that step. */
  lemma LastTagTurn(d: Data)
    requires GetVar(d, "TEST_arm") == None
    requires GetVar(d, "TEST_ramses") == Some("machine") && GetVar(d, "TEST_local") == Some("local")
    requires NoEdits(d)
    ensures ResolvedContent(d, "TEST", ThreeTags()) == Some("local")
    ensures KeyConsumed(d, "TEST", ThreeTags()) == ["TEST_ramses", "TEST_local"]
  {
    TestHelpers();
    var w2, w3 := GetVar(d, "TEST_ramses").value, GetVar(d, "TEST_local").value;
    LastOfThreeTurn(d, "TEST", "arm", "ramses", "local", w2, w3);
  }

  /** The tag of the first step of the doctest. */
  lemma OneTagFacts(ov: string)
    requires ov == "arm"
    ensures Split(ov, ':') == ["arm"] && ov != "" && '$' !in ov
  {
    assert forall i :: 0 <= i < |ov| ==> ov[i] in {'a', 'r', 'm'};
    SplitNoSeparator(ov, ':');
  }

  /** The tags of the later steps of the doctest. */
  function ThreeTags(): seq<string> {
    ["arm", "ramses", "local"]
  }

  /** `TEST` has none of its tag helpers. */
  predicate NoTags(d: Data) {
    GetVar(d, "TEST_arm") == None && GetVar(d, "TEST_ramses") == None && GetVar(d, "TEST_local") == None
  }

  lemma ThreeTagsFacts(ov: string)
    requires ov == "arm:ramses:local"
    ensures Split(ov, ':') == ThreeTags() && ov != "" && '$' !in ov
  {
    var a, b, c := "arm", "ramses", "local";
    assert ov == a + [':'] + b + [':'] + c;
    TagChars(a, b, c);
    assert Split(ov, ':') == [a, b, c] by {
      SplitThree(ov, a, b, c, ':');
    }
  }

  /** The tags of the doctest hold neither `:` nor `$`. */
  lemma TagChars(a: string, b: string, c: string)
    requires a == "arm" && b == "ramses" && c == "local"
    ensures ':' !in a && ':' !in b && ':' !in c
    ensures '$' !in a && '$' !in b && '$' !in c
  {
    assert forall i :: 0 <= i < |a| ==> a[i] in {'a', 'r', 'm'};
    assert forall i :: 0 <= i < |b| ==> b[i] in {'r', 'a', 'm', 's', 'e'};
    assert forall i :: 0 <= i < |c| ==> c[i] in {'l', 'o', 'c', 'a'};
  }

  lemma NoTagsUntagged(d: Data)
    requires NoTags(d)
    ensures Untagged(d, "TEST", ThreeTags())
  {
    TestHelpers();
    forall j | 0 <= j < 3 ensures !Truthy(GetVar(d, Helper("TEST", ThreeTags()[j]))) {
      assert j == 0 || j == 1 || j == 2;
    }
  }

  /** The append of the doctest, spelled out. */
  lemma AppendPieces(v: string, app: string)
    requires v == "local" && app == " foo"
    ensures v + app == "local foo" && app != ""
  {
  }

  /** The prepend of the doctest, spelled out. */
  lemma PrependPieces(pre: string, v: string)
    requires pre == "more " && v == "local foo"
    ensures pre + v == "more local foo" && pre != ""
  {
  }

  /** `TEST_append = " foo"` is appended, then deleted. */
  lemma OverrideAppend(d: Data, keys: seq<string>, ev: Evaluator, fuel: nat)
    requires IsKeyOrder(keys, d)
    requires GetVar(d, "OVERRIDES") == Some("arm:ramses:local") && OnlyTestHasHelpers(d, ThreeTags())
    requires GetVar(d, "TEST") == Some("local") && NoTags(d)
    requires GetVar(d, "TEST_append") == Some(" foo")
    requires GetVar(d, "TEST_prepend") == None && GetVar(d, "TEST_delete") == None
    ensures var r := UpdateDataSpec(d, keys, ev, fuel);
            r.1 == Success && GetVar(r.0, "TEST") == Some("local foo") && r.0.Keys == d.Keys - {"TEST_append"}
  {
    var ov := GetVar(d, "OVERRIDES").value;
    ThreeTagsFacts(ov);
    AppendStepTurn(d);
    var used := KeyConsumed(d, "TEST", ThreeTags());
    OneUsed(used, "TEST_append");
    UpdateOneNameFacts(d, keys, ev, fuel, ov, "TEST", ThreeTags(), Some("local foo"), used);
  }

  /** The turn of `TEST` in that step. */
  lemma AppendStepTurn(d: Data)
    requires GetVar(d, "TEST") == Some("local") && NoTags(d)
    requires GetVar(d, "TEST_append") == Some(" foo")
    requires GetVar(d, "TEST_prepend") == None && GetVar(d, "TEST_delete") == None
    ensures ResolvedContent(d, "TEST", ThreeTags()) == Some("local foo")
    ensures KeyConsumed(d, "TEST", ThreeTags()) == ["TEST_append"]
  {
    NoTagsUntagged(d);
    TestHelpers();
    var v, app := GetVar(d, "TEST").value, GetVar(d, "TEST_append").value;
    AppendPieces(v, app);
    AppendTurn(d, "TEST", ThreeTags(), v, app);
  }

  /** `TEST_prepend = "more "` is put in front, then deleted. */
  lemma OverridePrepend(d: Data, keys: seq<string>, ev: Evaluator, fuel: nat)
    requires IsKeyOrder(keys, d)
    requires GetVar(d, "OVERRIDES") == Some("arm:ramses:local") && OnlyTestHasHelpers(d, ThreeTags())
    requires GetVar(d, "TEST") == Some("local foo") && NoTags(d)
    requires GetVar(d, "TEST_prepend") == Some("more ")
    requires GetVar(d, "TEST_append") == None && GetVar(d, "TEST_delete") == None
    ensures var r := UpdateDataSpec(d, keys, ev, fuel);
            r.1 == Success && GetVar(r.0, "TEST") == Some("more local foo") && r.0.Keys == d.Keys - {"TEST_prepend"}
  {
    var ov := GetVar(d, "OVERRIDES").value;
    ThreeTagsFacts(ov);
    PrependStepTurn(d);
    var used := KeyConsumed(d, "TEST", ThreeTags());
    OneUsed(used, "TEST_prepend");
    UpdateOneNameFacts(d, keys, ev, fuel, ov, "TEST", ThreeTags(), Some("more local foo"), used);
  }

  /** The turn of `TEST` in that step. */
  lemma PrependStepTurn(d: Data)
    requires GetVar(d, "TEST") == Some("local foo") && NoTags(d)
    requires GetVar(d, "TEST_prepend") == Some("more ")
    requires GetVar(d, "TEST_append") == None && GetVar(d, "TEST_delete") == None
    ensures ResolvedContent(d, "TEST", ThreeTags()) == Some("more local foo")
    ensures KeyConsumed(d, "TEST", ThreeTags()) == ["TEST_prepend"]
  {
    NoTagsUntagged(d);
    TestHelpers();
    var v, pre := GetVar(d, "TEST").value, GetVar(d, "TEST_prepend").value;
    PrependPieces(pre, v);
    PrependTurn(d, "TEST", ThreeTags(), v, pre);
  }

  /** The line deletion on `more local foo` with `TEST_delete = "foo "`. */
  lemma DeletePieces(text: string, del: string)
    requires text == "more local foo" && del == "foo "
    ensures Pattern(del) == "foo"
    ensures '\n' !in text && Contains(text, Pattern(del))
  {
    DeletePattern(del);
    DeleteText(text, Pattern(del));
  }

  lemma DeletePattern(del: string)
    requires del == "foo "
    ensures Pattern(del) == "foo"
  {
    assert '\n' !in del by {
      assert forall i :: 0 <= i < |del| ==> del[i] in {'f', 'o', ' '};
    }
    assert RemoveChar(del, '\n') == del;
    assert StripStart(del) == 0 by {
      assert !IsSpace(del[0]);
    }
    assert StripEnd(del) == 3 by {
      assert IsSpace(del[3]) && del[..3][2] == 'o';
    }
  }

  lemma DeleteText(text: string, pattern: string)
    requires text == "more local foo" && pattern == "foo"
    ensures '\n' !in text && Contains(text, pattern)
  {
    assert forall i :: 0 <= i < |text| ==> text[i] in {'m', 'o', 'r', 'e', ' ', 'l', 'c', 'a', 'f'};
    assert StartsWith(text[11..], pattern);
  }

  /** `TEST_delete = "foo "` drops the one line of `TEST`, which contains
      `foo`: `TEST` is left empty. */
  lemma OverrideDelete(d: Data, keys: seq<string>, ev: Evaluator, fuel: nat)
    requires IsKeyOrder(keys, d)
    requires GetVar(d, "OVERRIDES") == Some("arm:ramses:local") && OnlyTestHasHelpers(d, ThreeTags())
    requires GetVar(d, "TEST") == Some("more local foo") && NoTags(d)
    requires GetVar(d, "TEST_delete") == Some("foo ")
    requires GetVar(d, "TEST_append") == None && GetVar(d, "TEST_prepend") == None
    ensures var r := UpdateDataSpec(d, keys, ev, fuel);
            r.1 == Success && GetVar(r.0, "TEST") == Some("") && r.0.Keys == d.Keys - {"TEST_delete"}
  {
    var ov := GetVar(d, "OVERRIDES").value;
    ThreeTagsFacts(ov);
    DeleteStepTurn(d);
    var used := KeyConsumed(d, "TEST", ThreeTags());
    OneUsed(used, "TEST_delete");
    UpdateOneNameFacts(d, keys, ev, fuel, ov, "TEST", ThreeTags(), Some(""), used);
  }

  /** The turn of `TEST` in that step. */
  lemma DeleteStepTurn(d: Data)
    requires GetVar(d, "TEST") == Some("more local foo") && NoTags(d)
    requires GetVar(d, "TEST_delete") == Some("foo ")
    requires GetVar(d, "TEST_append") == None && GetVar(d, "TEST_prepend") == None
    ensures ResolvedContent(d, "TEST", ThreeTags()) == Some("")
    ensures KeyConsumed(d, "TEST", ThreeTags()) == ["TEST_delete"]
  {
    NoTagsUntagged(d);
    TestHelpers();
    var text, del := GetVar(d, "TEST").value, GetVar(d, "TEST_delete").value;
    DeletePieces(text, del);
    SingleLineDropped(text, Pattern(del));
    DeleteTurn(d, "TEST", ThreeTags(), text, del);
  }
}
