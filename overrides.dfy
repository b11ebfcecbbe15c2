/** The override resolver of `bin/oe/data.py` (`update_data`) as functions of
    the store. For every name S, in the order of a snapshot of the keys, the
    content of S is replaced by the last non-empty `S_<tag>` of the tags in
    `OVERRIDES`, then `S_append` is appended, `S_prepend` prepended and the
    lines containing the pattern of `S_delete` dropped; every helper used is
    remembered and deleted at the end. Each step reads the store as the
    earlier steps left it. */
module Overrides {
  import opened Wrappers
  import opened Strings
  import opened VarStore
  import opened Expansion

  /** The helper variable of `s` for a suffix: `"%s_%s" % (s, suffix)`. */
  function Helper(s: string, suffix: string): string {
    s + "_" + suffix
  }

  /** `h` is one of the helper names of `s`. */
  predicate IsHelperOf(h: string, s: string) {
    StartsWith(h, s + "_")
  }

  /** Python's truth value of a looked-up content: present and not empty. */
  predicate Truthy(v: Option<string>) {
    v.Some? && v.value != ""
  }

  /** The store as the resolution has left it so far, and the list of helper
      names it has used (`dodel`). */
  datatype Progress = Progress(data: Data, consumed: seq<string>)

  lemma HelperNamesDiffer(s: string, suffix: string)
    ensures Helper(s, suffix) != s
    ensures IsHelperOf(Helper(s, suffix), s)
  {
    assert |Helper(s, suffix)| > |s|;
    assert Helper(s, suffix)[..|s + "_"|] == s + "_";
  }

  /** Two helpers of one name are the same exactly when their suffixes are. */
  lemma HelperInjective(s: string, x: string, y: string)
    ensures Helper(s, x) == Helper(s, y) <==> x == y
  {
    if Helper(s, x) == Helper(s, y) {
      assert x == Helper(s, x)[|s| + 1..];
      assert y == Helper(s, y)[|s| + 1..];
    }
  }

  // ---------------------------------------------------------------- the steps

  /** One tag of the inner loop: a non-empty `S_tag` replaces S and is used. */
  function TagStep(p: Progress, s: string, tag: string): Progress {
    var name := Helper(s, tag);
    var v := GetVar(p.data, name);
    if Truthy(v) then Progress(SetVarIn(p.data, s, v.value), p.consumed + [name]) else p
  }

  /** The inner loop over the tags, in their order. */
  function ApplyTags(p: Progress, s: string, tags: seq<string>): Progress
    decreases |tags|
  {
    if tags == [] then p
    else TagStep(ApplyTags(p, s, tags[..|tags| - 1]), s, tags[|tags| - 1])
  }

  /** A non-empty `S_append` is appended to S (absent S counting as empty). */
  function AppendStep(p: Progress, s: string): Progress {
    var name := Helper(s, "append");
    var v := GetVar(p.data, name);
    if Truthy(v) then Progress(SetVarIn(p.data, s, GetVar(p.data, s).GetOr("") + v.value), p.consumed + [name])
    else p
  }

  /** A non-empty `S_prepend` is put in front of S. */
  function PrependStep(p: Progress, s: string): Progress {
    var name := Helper(s, "prepend");
    var v := GetVar(p.data, name);
    if Truthy(v) then Progress(SetVarIn(p.data, s, v.value + GetVar(p.data, s).GetOr("")), p.consumed + [name])
    else p
  }

  /** The pattern of a `S_delete` value: newlines removed, whitespace trimmed.
      It holds only characters of the value, no newline, and neither starts
      nor ends with whitespace. */
  function Pattern(nameval: string): (r: string)
    ensures '\n' !in r
    ensures forall x :: x in r ==> x in nameval
    ensures r != [] ==> !IsSpace(r[0]) && !IsSpace(r[|r| - 1])
  {
    var t := RemoveChar(nameval, '\n');
    var r := Strip(t);
    assert forall x :: x in r ==> x in t;
    r
  }

  /** The lines that do not contain the pattern, in their order. */
  function KeptLines(lines: seq<string>, pattern: string): (r: seq<string>)
    ensures |r| <= |lines|
    ensures forall l :: l in r <==> l in lines && !Contains(l, pattern)
    decreases |lines|
  {
    if lines == [] then []
    else
      var prev := KeptLines(lines[..|lines| - 1], pattern);
      var last := lines[|lines| - 1];
      assert forall l :: l in lines <==> l in lines[..|lines| - 1] || l == last;
      if Contains(last, pattern) then prev else prev + [last]
  }

  /** The lines put back together, each after a newline. */
  function Rebuild(lines: seq<string>): string
    decreases |lines|
  {
    if lines == [] then "" else Rebuild(lines[..|lines| - 1]) + "\n" + lines[|lines| - 1]
  }

  /** What the line deletion makes of the content `text`. */
  function FilterLinesOf(text: string, pattern: string): string {
    Rebuild(KeptLines(Split(text, '\n'), pattern))
  }

  /** The loop of the line deletion: `new = new + '\n' + line` for every line
      of `text` that does not contain `pattern`. */
  method FilterLines(text: string, pattern: string) returns (filtered: string)
    ensures filtered == FilterLinesOf(text, pattern)
  {
    var lines := Split(text, '\n');
    filtered := "";
    var i := 0;
    while i < |lines|
      invariant 0 <= i <= |lines|
      invariant filtered == Rebuild(KeptLines(lines[..i], pattern))
    {
      var line := lines[i];
      ghost var next := Rebuild(KeptLines(lines[..i + 1], pattern));
      assert next == if Contains(line, pattern) then filtered else filtered + "\n" + line by {
        KeptLinesStep(lines, i, pattern);
      }
      if !Contains(line, pattern) {
        filtered := filtered + "\n" + line;
      }
      i := i + 1;
    }
    assert lines[..|lines|] == lines;
  }

  /** One more line for the loop of the line deletion: it is kept, after a
      newline, exactly when it does not contain the pattern. */
  lemma KeptLinesStep(lines: seq<string>, i: nat, pattern: string)
    requires i < |lines|
    ensures Rebuild(KeptLines(lines[..i + 1], pattern)) ==
            if Contains(lines[i], pattern) then Rebuild(KeptLines(lines[..i], pattern))
            else Rebuild(KeptLines(lines[..i], pattern)) + "\n" + lines[i]
  {
    assert lines[..i + 1][..i] == lines[..i];
    var prev := KeptLines(lines[..i], pattern);
    assert (prev + [lines[i]])[..|prev|] == prev;
  }

  /** A non-empty `S_delete` drops the lines of a non-empty S that contain its
      pattern; with S empty or absent nothing happens and `S_delete` is not
      used. */
  function DeleteStep(p: Progress, s: string): Progress {
    var name := Helper(s, "delete");
    var v := GetVar(p.data, name);
    var sval := GetVar(p.data, s);
    if Truthy(v) && Truthy(sval) then
      Progress(SetVarIn(p.data, s, FilterLinesOf(sval.value, Pattern(v.value))), p.consumed + [name])
    else p
  }

  /** The body of the outer loop for the name `s`. */
  function ResolveKey(p: Progress, s: string, tags: seq<string>): Progress {
    DeleteStep(PrependStep(AppendStep(ApplyTags(p, s, tags), s), s), s)
  }

  /** The outer loop over the names `keys`, in their order. */
  function ResolveKeys(p: Progress, keys: seq<string>, tags: seq<string>): Progress
    decreases |keys|
  {
    if keys == [] then p
    else ResolveKey(ResolveKeys(p, keys[..|keys| - 1], tags), keys[|keys| - 1], tags)
  }

  /** The final loop `for s in dodel: delVar(s, d)`: stops with the
      `KeyError` of the first name that is no longer there. */
  function DeleteAll(d: Data, names: seq<string>): (Data, Status)
    decreases |names|
  {
    if names == [] then (d, Success)
    else
      var prev := DeleteAll(d, names[..|names| - 1]);
      if prev.1 != Success then prev
      else
        match DelVarIn(prev.0, names[|names| - 1])
        case None => (prev.0, LookupFailure)
        case Some(d') => (d', Success)
  }

  /** The deletion loop ends at its first failure. */
  lemma {:induction false} DeleteAllStops(d: Data, names: seq<string>, j: nat)
    requires j <= |names|
    requires DeleteAll(d, names[..j]).1 != Success
    ensures DeleteAll(d, names) == DeleteAll(d, names[..j])
    decreases |names|
  {
    if j == |names| {
      assert names[..j] == names;
    } else {
      var front := names[..|names| - 1];
      assert front[..j] == names[..j];
      DeleteAllStops(d, front, j);
    }
  }

  /** `update_data(d)` with the keys taken in the order `keys` and at most
      `fuel` passes for expanding `OVERRIDES`. */
  function UpdateDataSpec(d: Data, keys: seq<string>, ev: Evaluator, fuel: nat): (r: (Data, Status))
    ensures GetVar(d, "OVERRIDES") == None ==> r == (d, Success)
    ensures ExpandOf(GetVar(d, "OVERRIDES"), d, ev, fuel) == Expanded(Some("")) ==> r == (d, Success)
    ensures ExpandOf(GetVar(d, "OVERRIDES"), d, ev, fuel) == Raised ==> r == (d, EvalFailure)
  {
    match ExpandOf(GetVar(d, "OVERRIDES"), d, ev, fuel)
    case Raised => (d, EvalFailure)
    case Exhausted(_) => (d, OutOfFuel)
    case Expanded(ov) =>
      if !Truthy(ov) then (d, Success)
      else
        var p := ResolveKeys(Progress(d, []), keys, Split(ov.value, ':'));
        DeleteAll(p.data, p.consumed)
  }

  // ------------------------------------------------- reference definitions

  /** The store with the content of its name `s` replaced by `c`. */
  function SetContent(d: Data, s: string, c: Option<string>): Data
    requires s in d
  {
    d[s := Var(c, d[s].flags)]
  }

  /** The content of the last tag's helper that is non-empty, if any. */
  function LastTagValue(d: Data, s: string, tags: seq<string>): Option<string>
    decreases |tags|
  {
    if tags == [] then None
    else
      var v := GetVar(d, Helper(s, tags[|tags| - 1]));
      if Truthy(v) then v else LastTagValue(d, s, tags[..|tags| - 1])
  }

  /** The non-empty tag helpers of `s`, in the order of the tags. */
  function TagsConsumed(d: Data, s: string, tags: seq<string>): seq<string>
    decreases |tags|
  {
    if tags == [] then []
    else
      var name := Helper(s, tags[|tags| - 1]);
      TagsConsumed(d, s, tags[..|tags| - 1]) + (if Truthy(GetVar(d, name)) then [name] else [])
  }

  /** The content of `s` after the tag loop. */
  function AfterTags(d: Data, s: string, tags: seq<string>): Option<string> {
    if LastTagValue(d, s, tags).Some? then LastTagValue(d, s, tags) else GetVar(d, s)
  }

  /** The content of `s` after the tags and the append. */
  function AfterAppend(d: Data, s: string, tags: seq<string>): Option<string> {
    var app := GetVar(d, Helper(s, "append"));
    if Truthy(app) then Some(AfterTags(d, s, tags).GetOr("") + app.value) else AfterTags(d, s, tags)
  }

  /** The content of `s` after the tags, the append and the prepend. */
  function ExtendedContent(d: Data, s: string, tags: seq<string>): Option<string> {
    var pre := GetVar(d, Helper(s, "prepend"));
    if Truthy(pre) then Some(pre.value + AfterAppend(d, s, tags).GetOr("")) else AfterAppend(d, s, tags)
  }

  /** The line deletion of `s` fires: `S_delete` and the content are non-empty. */
  predicate DeleteFires(d: Data, s: string, tags: seq<string>) {
    Truthy(GetVar(d, Helper(s, "delete"))) && Truthy(ExtendedContent(d, s, tags))
  }

  /** The content of `s` after its whole turn in the outer loop, read off the
      store `d` as it was when the turn began. */
  function ResolvedContent(d: Data, s: string, tags: seq<string>): Option<string> {
    if DeleteFires(d, s, tags)
    then Some(FilterLinesOf(ExtendedContent(d, s, tags).value, Pattern(GetVar(d, Helper(s, "delete")).value)))
    else ExtendedContent(d, s, tags)
  }

  /** The helpers the turn of `s` uses, in the order it uses them. */
  function KeyConsumed(d: Data, s: string, tags: seq<string>): seq<string> {
    TagsConsumed(d, s, tags) +
    (if Truthy(GetVar(d, Helper(s, "append"))) then [Helper(s, "append")] else []) +
    (if Truthy(GetVar(d, Helper(s, "prepend"))) then [Helper(s, "prepend")] else []) +
    (if DeleteFires(d, s, tags) then [Helper(s, "delete")] else [])
  }

  /** `k` has no non-empty helper for the tags: its turn changes nothing. */
  predicate Inert(d: Data, k: string, tags: seq<string>) {
    (forall i :: 0 <= i < |tags| ==> !Truthy(GetVar(d, Helper(k, tags[i])))) &&
    !Truthy(GetVar(d, Helper(k, "append"))) &&
    !Truthy(GetVar(d, Helper(k, "prepend"))) &&
    !Truthy(GetVar(d, Helper(k, "delete")))
  }

  // ---------------------------------------------------------------- lemmas

  /** Changing the content of `s` changes no other lookup, and setting `s`
      afterwards is one content change. */
  lemma SetContentFacts(d: Data, s: string, c: Option<string>)
    requires s in d
    ensures GetVar(SetContent(d, s, c), s) == c
    ensures forall m :: m != s ==> GetVar(SetContent(d, s, c), m) == GetVar(d, m)
    ensures forall v :: SetVarIn(SetContent(d, s, c), s, v) == SetContent(d, s, Some(v))
    ensures SetContent(d, s, GetVar(d, s)) == d
    ensures SetContent(d, s, c).Keys == d.Keys
  {
  }

  /** Priority of tags, when some tag applies: the last tag whose helper is
      non-empty gives the value. */
  lemma {:induction false} LastTagWins(d: Data, s: string, tags: seq<string>, i: nat)
    requires i < |tags|
    requires Truthy(GetVar(d, Helper(s, tags[i])))
    requires forall j :: i < j < |tags| ==> !Truthy(GetVar(d, Helper(s, tags[j])))
    ensures LastTagValue(d, s, tags) == GetVar(d, Helper(s, tags[i]))
    decreases |tags|
  {
    if i < |tags| - 1 {
      var front := tags[..|tags| - 1];
      assert front[i] == tags[i];
      assert forall j :: i < j < |front| ==> front[j] == tags[j];
      LastTagWins(d, s, front, i);
    }
  }

  /** Priority of tags, when no tag applies: there is no value to take and no
      tag helper is used. */
  lemma {:induction false} NoTagApplies(d: Data, s: string, tags: seq<string>)
    requires forall j :: 0 <= j < |tags| ==> !Truthy(GetVar(d, Helper(s, tags[j])))
    ensures LastTagValue(d, s, tags) == None
    ensures TagsConsumed(d, s, tags) == []
    decreases |tags|
  {
    if tags != [] {
      var front := tags[..|tags| - 1];
      assert forall j :: 0 <= j < |front| ==> front[j] == tags[j];
      NoTagApplies(d, s, front);
    }
  }

  /** The tag helpers used are the non-empty ones: each is a non-empty helper
      of `s` in the store, and every non-empty tag helper is among them. */
  lemma {:induction false} TagsConsumedMeaning(d: Data, s: string, tags: seq<string>)
    ensures forall h :: h in TagsConsumed(d, s, tags) ==> Truthy(GetVar(d, h)) && h in d && IsHelperOf(h, s)
    ensures forall i :: 0 <= i < |tags| && Truthy(GetVar(d, Helper(s, tags[i]))) ==>
              Helper(s, tags[i]) in TagsConsumed(d, s, tags)
    decreases |tags|
  {
    if tags != [] {
      var front := tags[..|tags| - 1];
      TagsConsumedMeaning(d, s, front);
      HelperNamesDiffer(s, tags[|tags| - 1]);
      forall i | 0 <= i < |front| ensures front[i] == tags[i] { }
    }
  }

  /** Every tag helper used is the helper of `s` for one of the tags. */
  lemma {:induction false} TagsConsumedFromTags(d: Data, s: string, tags: seq<string>)
    ensures forall h :: h in TagsConsumed(d, s, tags) ==> exists i :: 0 <= i < |tags| && h == Helper(s, tags[i])
    decreases |tags|
  {
    if tags != [] {
      var front := tags[..|tags| - 1];
      TagsConsumedFromTags(d, s, front);
      forall i | 0 <= i < |front| ensures front[i] == tags[i] { }
    }
  }

  /** The tag loop, on a name of the store, is one content change of `s` to
      `AfterTags` and uses `TagsConsumed`. */
  lemma {:induction false} ApplyTagsEffect(p: Progress, s: string, tags: seq<string>)
    requires s in p.data
    ensures ApplyTags(p, s, tags) ==
            Progress(SetContent(p.data, s, AfterTags(p.data, s, tags)), p.consumed + TagsConsumed(p.data, s, tags))
    decreases |tags|
  {
    SetContentFacts(p.data, s, AfterTags(p.data, s, tags));
    if tags == [] {
      assert p.consumed + [] == p.consumed;
    } else {
      var front := tags[..|tags| - 1];
      var last := tags[|tags| - 1];
      ApplyTagsEffect(p, s, front);
      SetContentFacts(p.data, s, AfterTags(p.data, s, front));
      HelperNamesDiffer(s, last);
    }
  }

  /** The append step after a content change of `s` to `c`. */
  lemma AppendStepOn(d: Data, s: string, c: Option<string>, used: seq<string>)
    requires s in d
    ensures var app := GetVar(d, Helper(s, "append"));
            AppendStep(Progress(SetContent(d, s, c), used), s) ==
            if Truthy(app) then Progress(SetContent(d, s, Some(c.GetOr("") + app.value)), used + [Helper(s, "append")])
            else Progress(SetContent(d, s, c), used)
  {
    HelperNamesDiffer(s, "append");
    SetContentFacts(d, s, c);
  }

  /** The prepend step after a content change of `s` to `c`. */
  lemma PrependStepOn(d: Data, s: string, c: Option<string>, used: seq<string>)
    requires s in d
    ensures var pre := GetVar(d, Helper(s, "prepend"));
            PrependStep(Progress(SetContent(d, s, c), used), s) ==
            if Truthy(pre) then Progress(SetContent(d, s, Some(pre.value + c.GetOr(""))), used + [Helper(s, "prepend")])
            else Progress(SetContent(d, s, c), used)
  {
    HelperNamesDiffer(s, "prepend");
    SetContentFacts(d, s, c);
  }

  /** The delete step after a content change of `s` to `c`. */
  lemma DeleteStepOn(d: Data, s: string, c: Option<string>, used: seq<string>)
    requires s in d
    ensures var del := GetVar(d, Helper(s, "delete"));
            DeleteStep(Progress(SetContent(d, s, c), used), s) ==
            if Truthy(del) && Truthy(c)
            then Progress(SetContent(d, s, Some(FilterLinesOf(c.value, Pattern(del.value)))), used + [Helper(s, "delete")])
            else Progress(SetContent(d, s, c), used)
  {
    HelperNamesDiffer(s, "delete");
    SetContentFacts(d, s, c);
  }

  lemma ConcatAssoc(x: seq<string>, y: seq<string>, z: seq<string>)
    ensures x + y + z == x + (y + z)
  {
  }

  /** The turn of a name `s` of the store is one content change of `s` to
      `ResolvedContent` and uses `KeyConsumed`: every lookup it makes of a
      helper sees the store as it was when the turn began. */
  lemma ResolveKeyEffect(p: Progress, s: string, tags: seq<string>)
    requires s in p.data
    ensures ResolveKey(p, s, tags) ==
            Progress(SetContent(p.data, s, ResolvedContent(p.data, s, tags)), p.consumed + KeyConsumed(p.data, s, tags))
  {
    var d := p.data;
    ApplyTagsEffect(p, s, tags);
    var t := TagsConsumed(d, s, tags);
    var a := if Truthy(GetVar(d, Helper(s, "append"))) then [Helper(s, "append")] else [];
    var b := if Truthy(GetVar(d, Helper(s, "prepend"))) then [Helper(s, "prepend")] else [];
    var e := if DeleteFires(d, s, tags) then [Helper(s, "delete")] else [];
    assert KeyConsumed(d, s, tags) == t + a + b + e;
    var p1 := ApplyTags(p, s, tags);
    assert p1 == Progress(SetContent(d, s, AfterTags(d, s, tags)), p.consumed + t);
    AppendStepOn(d, s, AfterTags(d, s, tags), p.consumed + t);
    var p2 := AppendStep(p1, s);
    assert p2 == Progress(SetContent(d, s, AfterAppend(d, s, tags)), p.consumed + t + a);
    PrependStepOn(d, s, AfterAppend(d, s, tags), p.consumed + t + a);
    var p3 := PrependStep(p2, s);
    assert p3 == Progress(SetContent(d, s, ExtendedContent(d, s, tags)), p.consumed + t + a + b);
    DeleteStepOn(d, s, ExtendedContent(d, s, tags), p.consumed + t + a + b);
    assert DeleteStep(p3, s) == Progress(SetContent(d, s, ResolvedContent(d, s, tags)), p.consumed + t + a + b + e);
    ConcatAssoc(p.consumed, t, a);
    ConcatAssoc(p.consumed, t + a, b);
    ConcatAssoc(p.consumed, t + a + b, e);
  }

  /** The helpers a turn uses are non-empty helpers of `s` that are in the
      store; it uses every non-empty helper of the tags, the append and the
      prepend. It uses `S_delete` exactly when the deletion fires or when
      `delete` is itself one of the tags and `S_delete` is non-empty.
      Empty helpers are never used, so they are never deleted. */
  lemma KeyConsumedMeaning(d: Data, s: string, tags: seq<string>)
    ensures forall h :: h in KeyConsumed(d, s, tags) ==> Truthy(GetVar(d, h)) && h in d && IsHelperOf(h, s)
    ensures forall i :: 0 <= i < |tags| && Truthy(GetVar(d, Helper(s, tags[i]))) ==>
              Helper(s, tags[i]) in KeyConsumed(d, s, tags)
    ensures Truthy(GetVar(d, Helper(s, "append"))) ==> Helper(s, "append") in KeyConsumed(d, s, tags)
    ensures Truthy(GetVar(d, Helper(s, "prepend"))) ==> Helper(s, "prepend") in KeyConsumed(d, s, tags)
    ensures Helper(s, "delete") in KeyConsumed(d, s, tags) <==>
            DeleteFires(d, s, tags) || ("delete" in tags && Truthy(GetVar(d, Helper(s, "delete"))))
  {
    TagsConsumedMeaning(d, s, tags);
    HelperNamesDiffer(s, "append");
    HelperNamesDiffer(s, "prepend");
    HelperNamesDiffer(s, "delete");
    HelperInjective(s, "append", "delete");
    HelperInjective(s, "prepend", "delete");
    var del := Helper(s, "delete");
    TagsConsumedFromTags(d, s, tags);
    if del in TagsConsumed(d, s, tags) {
      var i :| 0 <= i < |tags| && del == Helper(s, tags[i]);
      HelperInjective(s, tags[i], "delete");
    }
    if "delete" in tags && Truthy(GetVar(d, del)) {
      var i :| 0 <= i < |tags| && tags[i] == "delete";
      assert del == Helper(s, tags[i]);
    }
  }

  /** The value the tags give is a non-empty helper content, and there is one
      exactly when some tag helper is non-empty. */
  lemma {:induction false} LastTagValueMeaning(d: Data, s: string, tags: seq<string>)
    ensures LastTagValue(d, s, tags).Some? ==> Truthy(LastTagValue(d, s, tags))
    ensures LastTagValue(d, s, tags).Some? <==> exists i :: 0 <= i < |tags| && Truthy(GetVar(d, Helper(s, tags[i])))
    decreases |tags|
  {
    if tags != [] {
      var front := tags[..|tags| - 1];
      LastTagValueMeaning(d, s, front);
      forall i | 0 <= i < |front| ensures front[i] == tags[i] { }
    }
  }

  /** A tag named `delete` whose helper is non-empty makes the turn use
      `S_delete` twice: once as a tag, and once for the deletion, which then
      always fires because the tag has made the content non-empty. */
  lemma DeleteTagUsedTwice(d: Data, s: string, tags: seq<string>)
    requires "delete" in tags
    requires Truthy(GetVar(d, Helper(s, "delete")))
    ensures DeleteFires(d, s, tags)
    ensures var used := KeyConsumed(d, s, tags);
            |used| >= 2 && used[|used| - 1] == Helper(s, "delete") &&
            exists i :: 0 <= i < |used| - 1 && used[i] == Helper(s, "delete")
  {
    var i :| 0 <= i < |tags| && tags[i] == "delete";
    var del := Helper(s, "delete");
    assert Helper(s, tags[i]) == del;
    LastTagValueMeaning(d, s, tags);
    assert Truthy(AfterTags(d, s, tags));
    assert Truthy(AfterAppend(d, s, tags));
    assert Truthy(ExtendedContent(d, s, tags));
    TagsConsumedMeaning(d, s, tags);
    var t := TagsConsumed(d, s, tags);
    assert del in t;
    var k :| 0 <= k < |t| && t[k] == del;
    var used := KeyConsumed(d, s, tags);
    assert used == t + (if Truthy(GetVar(d, Helper(s, "append"))) then [Helper(s, "append")] else []) +
                   (if Truthy(GetVar(d, Helper(s, "prepend"))) then [Helper(s, "prepend")] else []) + [del];
    assert used[k] == del;
  }

  /** A name without non-empty helpers keeps its turn from doing anything. */
  lemma InertKeyUnchanged(p: Progress, k: string, tags: seq<string>)
    requires k in p.data
    requires Inert(p.data, k, tags)
    ensures ResolveKey(p, k, tags) == p
  {
    NoTagApplies(p.data, k, tags);
    ResolveKeyEffect(p, k, tags);
    SetContentFacts(p.data, k, GetVar(p.data, k));
    assert p.consumed + [] == p.consumed;
  }

  /** A loop over inert names only changes nothing. */
  lemma {:induction false} AllInertUnchanged(d: Data, keys: seq<string>, tags: seq<string>)
    requires forall k :: k in keys ==> k in d && Inert(d, k, tags)
    ensures ResolveKeys(Progress(d, []), keys, tags) == Progress(d, [])
    decreases |keys|
  {
    if keys != [] {
      var front := keys[..|keys| - 1];
      assert forall k :: k in front ==> k in keys;
      AllInertUnchanged(d, front, tags);
      InertKeyUnchanged(Progress(d, []), keys[|keys| - 1], tags);
    }
  }

  /** When every name but `s` is inert and none of them has `s` among its
      helper names, the whole outer loop does exactly the turn of `s` on the
      original store, whatever the order of the names. */
  lemma {:induction false} ResolveSingleKey(d: Data, keys: seq<string>, tags: seq<string>, s: string)
    requires forall i, j :: 0 <= i < j < |keys| ==> keys[i] != keys[j]
    requires forall k :: k in keys ==> k in d
    requires s in keys
    requires forall k :: k in keys && k != s ==> Inert(d, k, tags) && !IsHelperOf(s, k)
    ensures ResolveKeys(Progress(d, []), keys, tags) == ResolveKey(Progress(d, []), s, tags)
    decreases |keys|
  {
    var front := keys[..|keys| - 1];
    var last := keys[|keys| - 1];
    DistinctSnoc(keys);
    assert forall k :: k in front ==> k in keys;
    if last == s {
      AllInertUnchanged(d, front, tags);
    } else {
      assert s in front;
      ResolveSingleKey(d, front, tags, s);
      InertAfterTurn(d, s, last, tags);
    }
  }

  /** The turn of `s` leaves a name that is not `s`, not one of its helpers
      and inert as inert: its own turn afterwards changes nothing. */
  lemma InertAfterTurn(d: Data, s: string, k: string, tags: seq<string>)
    requires s in d && k in d && k != s
    requires Inert(d, k, tags) && !IsHelperOf(s, k)
    ensures ResolveKey(ResolveKey(Progress(d, []), s, tags), k, tags) == ResolveKey(Progress(d, []), s, tags)
  {
    ResolveKeyEffect(Progress(d, []), s, tags);
    var q := ResolveKey(Progress(d, []), s, tags);
    SetContentFacts(d, s, ResolvedContent(d, s, tags));
    forall suffix | true
      ensures GetVar(q.data, Helper(k, suffix)) == GetVar(d, Helper(k, suffix))
    {
      HelperNamesDiffer(k, suffix);
    }
    assert Inert(q.data, k, tags);
    InertKeyUnchanged(q, k, tags);
  }

  /** The helpers the turns of `keys` use, each turn read off the store `d`,
      in the order of the names. */
  function AllConsumed(d: Data, keys: seq<string>, tags: seq<string>): seq<string>
    decreases |keys|
  {
    if keys == [] then []
    else AllConsumed(d, keys[..|keys| - 1], tags) + KeyConsumed(d, keys[|keys| - 1], tags)
  }

  /** No name of `keys` whose turn does something is a helper name of another
      name of `keys`: the override sets of the names do not overlap. */
  predicate Independent(d: Data, keys: seq<string>, tags: seq<string>) {
    forall a, b :: a in keys && b in keys && a != b && !Inert(d, a, tags) ==> !IsHelperOf(a, b)
  }

  /** Two stores agree on everything the turn of `s` reads: `s` and its helpers. */
  ghost predicate SameView(d1: Data, d2: Data, s: string) {
    GetVar(d1, s) == GetVar(d2, s) && forall x :: GetVar(d1, Helper(s, x)) == GetVar(d2, Helper(s, x))
  }

  lemma {:induction false} TagsSameView(d1: Data, d2: Data, s: string, tags: seq<string>)
    requires SameView(d1, d2, s)
    ensures LastTagValue(d1, s, tags) == LastTagValue(d2, s, tags)
    ensures TagsConsumed(d1, s, tags) == TagsConsumed(d2, s, tags)
    decreases |tags|
  {
    if tags != [] {
      TagsSameView(d1, d2, s, tags[..|tags| - 1]);
    }
  }

  /** The turn of `s` depends only on `s` and its helpers. */
  lemma TurnSameView(d1: Data, d2: Data, s: string, tags: seq<string>)
    requires SameView(d1, d2, s)
    ensures ResolvedContent(d1, s, tags) == ResolvedContent(d2, s, tags)
    ensures KeyConsumed(d1, s, tags) == KeyConsumed(d2, s, tags)
  {
    TagsSameView(d1, d2, s, tags);
    assert AfterTags(d1, s, tags) == AfterTags(d2, s, tags);
    assert GetVar(d1, Helper(s, "append")) == GetVar(d2, Helper(s, "append"));
    assert AfterAppend(d1, s, tags) == AfterAppend(d2, s, tags);
    assert GetVar(d1, Helper(s, "prepend")) == GetVar(d2, Helper(s, "prepend"));
    assert ExtendedContent(d1, s, tags) == ExtendedContent(d2, s, tags);
    assert GetVar(d1, Helper(s, "delete")) == GetVar(d2, Helper(s, "delete"));
  }

  /** An inert name keeps its content and uses no helper. */
  lemma InertResolved(d: Data, k: string, tags: seq<string>)
    requires Inert(d, k, tags)
    ensures ResolvedContent(d, k, tags) == GetVar(d, k)
    ensures KeyConsumed(d, k, tags) == []
  {
    NoTagApplies(d, k, tags);
  }

  /** With independent names listed once, the outer loop gives every name its
      `ResolvedContent` read off the original store, whatever the order of the
      names: no turn sees what another turn wrote. Names not listed keep their
      record, and the helpers used are those of every turn, in turn order. */
  lemma {:induction false} ResolveIndependent(d: Data, keys: seq<string>, tags: seq<string>)
    requires forall i, j :: 0 <= i < j < |keys| ==> keys[i] != keys[j]
    requires forall k :: k in keys ==> k in d
    requires Independent(d, keys, tags)
    ensures var q := ResolveKeys(Progress(d, []), keys, tags);
            q.data.Keys == d.Keys &&
            (forall n :: n in d ==> q.data[n] == if n in keys then Var(ResolvedContent(d, n, tags), d[n].flags) else d[n]) &&
            q.consumed == AllConsumed(d, keys, tags)
    decreases |keys|
  {
    if keys != [] {
      var front := keys[..|keys| - 1];
      var s := keys[|keys| - 1];
      DistinctSnoc(keys);
      assert forall k :: k in keys <==> k in front || k == s;
      ResolveIndependent(d, front, tags);
      var p := ResolveKeys(Progress(d, []), front, tags);
      forall x
        ensures GetVar(p.data, Helper(s, x)) == GetVar(d, Helper(s, x))
      {
        var h := Helper(s, x);
        HelperNamesDiffer(s, x);
        if h in d && h in front {
          InertResolved(d, h, tags);
        }
      }
      assert SameView(p.data, d, s);
      TurnSameView(p.data, d, s, tags);
      ResolveKeyEffect(p, s, tags);
    }
  }

  /** Every name of a duplicate-free sequence occurs in it once. */
  lemma {:induction false} DistinctCount(s: seq<string>)
    requires forall i, j :: 0 <= i < j < |s| ==> s[i] != s[j]
    ensures forall x :: multiset(s)[x] == if x in s then 1 else 0
    decreases |s|
  {
    if s != [] {
      var front := s[..|s| - 1];
      DistinctSnoc(s);
      DistinctCount(front);
      assert s == front + [s[|s| - 1]];
    }
  }

  lemma {:induction false} AllConsumedAppend(d: Data, x: seq<string>, y: seq<string>, tags: seq<string>)
    ensures AllConsumed(d, x + y, tags) == AllConsumed(d, x, tags) + AllConsumed(d, y, tags)
    decreases |y|
  {
    if y == [] {
      assert x + y == x;
    } else {
      var yf := y[..|y| - 1];
      assert (x + y)[..|x + y| - 1] == x + yf;
      AllConsumedAppend(d, x, yf, tags);
      ConcatAssoc(AllConsumed(d, x, tags), AllConsumed(d, yf, tags), KeyConsumed(d, y[|y| - 1], tags));
    }
  }

  /** Taking one name out of a permutation of `keys1` leaves a permutation of
      the front of `keys1` when the name is its last. */
  lemma RemoveLast(keys1: seq<string>, keys2: seq<string>, i: nat)
    requires multiset(keys1) == multiset(keys2)
    requires i < |keys2| && |keys1| > 0 && keys2[i] == keys1[|keys1| - 1]
    ensures multiset(keys1[..|keys1| - 1]) == multiset(keys2[..i] + keys2[i + 1..])
  {
    var front, last := keys1[..|keys1| - 1], keys1[|keys1| - 1];
    var before, after := keys2[..i], keys2[i + 1..];
    assert keys1 == front + [last];
    assert keys2 == before + [last] + after;
    assert multiset(keys1) == multiset(front) + multiset{last};
    assert multiset(keys2) == multiset(before + after) + multiset{last};
    assert multiset(front) == multiset(keys1) - multiset{last};
    assert multiset(before + after) == multiset(keys2) - multiset{last};
  }

  /** The helpers of the turn of one name, taken out of the helpers of all. */
  lemma AllConsumedRemove(d: Data, keys: seq<string>, i: nat, tags: seq<string>)
    requires i < |keys|
    ensures multiset(AllConsumed(d, keys, tags)) ==
            multiset(AllConsumed(d, keys[..i] + keys[i + 1..], tags)) + multiset(KeyConsumed(d, keys[i], tags))
  {
    var before, after := keys[..i], keys[i + 1..];
    assert keys == before + ([keys[i]] + after);
    AllConsumedAppend(d, before, [keys[i]] + after, tags);
    AllConsumedAppend(d, [keys[i]], after, tags);
    AllConsumedAppend(d, before, after, tags);
    AllConsumedSingle(d, keys[i], tags);
    MultisetMiddle(AllConsumed(d, before, tags), KeyConsumed(d, keys[i], tags), AllConsumed(d, after, tags));
  }

  lemma AllConsumedSingle(d: Data, k: string, tags: seq<string>)
    ensures AllConsumed(d, [k], tags) == KeyConsumed(d, k, tags)
  {
    assert [k][..0] == [];
  }

  lemma MultisetMiddle(a: seq<string>, b: seq<string>, c: seq<string>)
    ensures multiset(a + (b + c)) == multiset(a + c) + multiset(b)
  {
  }

  /** The helpers of all turns, counted with repetition, do not depend on the
      order of the names. */
  lemma {:induction false} AllConsumedPermutation(d: Data, keys1: seq<string>, keys2: seq<string>, tags: seq<string>)
    requires multiset(keys1) == multiset(keys2)
    ensures multiset(AllConsumed(d, keys1, tags)) == multiset(AllConsumed(d, keys2, tags))
    decreases |keys1|
  {
    if keys1 == [] {
      assert |keys2| == |multiset(keys2)| == 0;
    } else {
      var last := keys1[|keys1| - 1];
      assert last in multiset(keys1);
      var i :| 0 <= i < |keys2| && keys2[i] == last;
      RemoveLast(keys1, keys2, i);
      AllConsumedPermutation(d, keys1[..|keys1| - 1], keys2[..i] + keys2[i + 1..], tags);
      AllConsumedRemove(d, keys2, i, tags);
    }
  }

  /** For independent names, two orders of the keys of the store give the same
      store and use the same helpers, each as often. */
  lemma KeyOrderIrrelevant(d: Data, keys1: seq<string>, keys2: seq<string>, tags: seq<string>)
    requires IsKeyOrder(keys1, d) && IsKeyOrder(keys2, d)
    requires Independent(d, keys1, tags)
    ensures var q1 := ResolveKeys(Progress(d, []), keys1, tags);
            var q2 := ResolveKeys(Progress(d, []), keys2, tags);
            q1.data == q2.data && multiset(q1.consumed) == multiset(q2.consumed)
  {
    assert forall k :: k in keys1 <==> k in keys2;
    assert Independent(d, keys2, tags) by {
      assert forall k :: k in keys1 <==> k in keys2;
    }
    SameStoreInAnyOrder(d, keys1, keys2, tags);
    assert multiset(keys1) == multiset(keys2) by {
      DistinctCount(keys1);
      DistinctCount(keys2);
    }
    SameHelpersInAnyOrder(d, keys1, keys2, tags);
  }

  lemma SameStoreInAnyOrder(d: Data, keys1: seq<string>, keys2: seq<string>, tags: seq<string>)
    requires forall i, j :: 0 <= i < j < |keys1| ==> keys1[i] != keys1[j]
    requires forall i, j :: 0 <= i < j < |keys2| ==> keys2[i] != keys2[j]
    requires forall k :: k in keys1 ==> k in d
    requires forall k :: k in keys1 <==> k in keys2
    requires Independent(d, keys1, tags) && Independent(d, keys2, tags)
    ensures ResolveKeys(Progress(d, []), keys1, tags).data == ResolveKeys(Progress(d, []), keys2, tags).data
  {
    ResolveIndependent(d, keys1, tags);
    ResolveIndependent(d, keys2, tags);
  }

  lemma SameHelpersInAnyOrder(d: Data, keys1: seq<string>, keys2: seq<string>, tags: seq<string>)
    requires forall i, j :: 0 <= i < j < |keys1| ==> keys1[i] != keys1[j]
    requires forall i, j :: 0 <= i < j < |keys2| ==> keys2[i] != keys2[j]
    requires forall k :: k in keys1 ==> k in d
    requires forall k :: k in keys2 ==> k in d
    requires multiset(keys1) == multiset(keys2)
    requires Independent(d, keys1, tags) && Independent(d, keys2, tags)
    ensures multiset(ResolveKeys(Progress(d, []), keys1, tags).consumed) ==
            multiset(ResolveKeys(Progress(d, []), keys2, tags).consumed)
  {
    ResolveIndependent(d, keys1, tags);
    ResolveIndependent(d, keys2, tags);
    AllConsumedPermutation(d, keys1, keys2, tags);
  }

  /** The outer loop over names of the store keeps the names and every flag,
      and every helper it uses is a name of the store. */
  lemma {:induction false} ResolveKeysKeepsNames(d: Data, keys: seq<string>, tags: seq<string>)
    requires forall k :: k in keys ==> k in d
    ensures var q := ResolveKeys(Progress(d, []), keys, tags);
            q.data.Keys == d.Keys &&
            (forall k :: k in d ==> q.data[k].flags == d[k].flags) &&
            (forall h :: h in q.consumed ==> h in d)
    decreases |keys|
  {
    if keys != [] {
      var front := keys[..|keys| - 1];
      var s := keys[|keys| - 1];
      assert forall k :: k in front ==> k in keys;
      ResolveKeysKeepsNames(d, front, tags);
      var p := ResolveKeys(Progress(d, []), front, tags);
      var q := ResolveKeys(Progress(d, []), keys, tags);
      assert s in p.data;
      assert q == ResolveKey(p, s, tags);
      assert q.data == SetContent(p.data, s, ResolvedContent(p.data, s, tags)) &&
             q.consumed == p.consumed + KeyConsumed(p.data, s, tags) by {
        ResolveKeyEffect(p, s, tags);
      }
      assert forall h :: h in KeyConsumed(p.data, s, tags) ==> h in p.data by {
        KeyConsumedMeaning(p.data, s, tags);
      }
    }
  }

  /** Deleting names that are all in the store succeeds exactly when no name
      is listed twice, and then removes exactly those names; the only failure
      is the `KeyError` of a repeated name. */
  lemma {:induction false} DeleteAllEffect(d: Data, names: seq<string>)
    requires forall h :: h in names ==> h in d
    ensures DeleteAll(d, names).1 == Success <==> forall i, j :: 0 <= i < j < |names| ==> names[i] != names[j]
    ensures DeleteAll(d, names).1 == Success ==> DeleteAll(d, names).0 == d - (set h | h in names)
    ensures DeleteAll(d, names).1 in {Success, LookupFailure}
    decreases |names|
  {
    if names != [] {
      var front := names[..|names| - 1];
      var last := names[|names| - 1];
      assert forall h :: h in front ==> h in names;
      DeleteAllEffect(d, front);
      DistinctSnoc(names);
      var prev := DeleteAll(d, front);
      if prev.1 == Success {
        assert last in prev.0 <==> last !in front;
        if last in front {
          assert DeleteAll(d, names) == (prev.0, LookupFailure);
        } else {
          assert DeleteAll(d, names) == (prev.0 - {last}, Success);
          assert (set h | h in names) == (set h | h in front) + {last};
        }
      } else {
        assert DeleteAll(d, names) == prev;
      }
    }
  }

  /** What `update_data` does once `OVERRIDES` expands to a non-empty text:
      it succeeds exactly when no helper is used twice, and then every used
      helper is gone, every other name is still there with its flags, and
      each content is what the outer loop left. */
  lemma UpdateDataEffect(d: Data, keys: seq<string>, ev: Evaluator, fuel: nat)
    requires IsKeyOrder(keys, d)
    requires ExpandOf(GetVar(d, "OVERRIDES"), d, ev, fuel).Expanded?
    requires Truthy(ExpandOf(GetVar(d, "OVERRIDES"), d, ev, fuel).text)
    ensures var tags := Split(ExpandOf(GetVar(d, "OVERRIDES"), d, ev, fuel).text.value, ':');
            var q := ResolveKeys(Progress(d, []), keys, tags);
            var r := UpdateDataSpec(d, keys, ev, fuel);
            (r.1 == Success <==> forall i, j :: 0 <= i < j < |q.consumed| ==> q.consumed[i] != q.consumed[j]) &&
            (r.1 != Success ==> r.1 == LookupFailure) &&
            (r.1 == Success ==>
               r.0 == q.data - (set h | h in q.consumed) &&
               r.0.Keys == d.Keys - (set h | h in q.consumed) &&
               forall k :: k in r.0 ==> r.0[k].flags == d[k].flags)
  {
    var ov := ExpandOf(GetVar(d, "OVERRIDES"), d, ev, fuel).text;
    var tags := Split(ov.value, ':');
    ResolveKeysKeepsNames(d, keys, tags);
    var q := ResolveKeys(Progress(d, []), keys, tags);
    assert UpdateDataSpec(d, keys, ev, fuel) == DeleteAll(q.data, q.consumed);
    DeleteAllEffect(q.data, q.consumed);
    var r := UpdateDataSpec(d, keys, ev, fuel);
    if r.1 == Success {
      var gone := set h | h in q.consumed;
      assert r.0 == q.data - gone;
      assert r.0.Keys == q.data.Keys - gone;
      assert forall k :: k in r.0 ==> r.0[k] == q.data[k];
    } else {
      assert DeleteAll(q.data, q.consumed).1 in {Success, LookupFailure};
      assert r.1 == LookupFailure;
      assert !(forall i, j :: 0 <= i < j < |q.consumed| ==> q.consumed[i] != q.consumed[j]);
    }
  }

  /** `update_data` on independent names, in terms of the original store: it
      succeeds exactly when no helper is used twice over all the turns, and
      then every used helper is gone and every other name has its
      `ResolvedContent` and its flags. */
  lemma UpdateDataIndependent(d: Data, keys: seq<string>, ev: Evaluator, fuel: nat)
    requires IsKeyOrder(keys, d)
    requires ExpandOf(GetVar(d, "OVERRIDES"), d, ev, fuel).Expanded?
    requires Truthy(ExpandOf(GetVar(d, "OVERRIDES"), d, ev, fuel).text)
    requires Independent(d, keys, Split(ExpandOf(GetVar(d, "OVERRIDES"), d, ev, fuel).text.value, ':'))
    ensures var tags := Split(ExpandOf(GetVar(d, "OVERRIDES"), d, ev, fuel).text.value, ':');
            var used := AllConsumed(d, keys, tags);
            var r := UpdateDataSpec(d, keys, ev, fuel);
            (r.1 == Success <==> forall i, j :: 0 <= i < j < |used| ==> used[i] != used[j]) &&
            (r.1 != Success ==> r.1 == LookupFailure) &&
            (r.1 == Success ==>
               r.0.Keys == d.Keys - (set h | h in used) &&
               forall n :: n in r.0 ==> r.0[n] == Var(ResolvedContent(d, n, tags), d[n].flags))
  {
    var tags := Split(ExpandOf(GetVar(d, "OVERRIDES"), d, ev, fuel).text.value, ':');
    UpdateDataEffect(d, keys, ev, fuel);
    ResolveIndependent(d, keys, tags);
  }

  lemma {:induction false} ApplyTagsExtends(p: Progress, s: string, tags: seq<string>)
    ensures p.consumed <= ApplyTags(p, s, tags).consumed
    decreases |tags|
  {
    if tags != [] {
      ApplyTagsExtends(p, s, tags[..|tags| - 1]);
    }
  }

  /** A turn only adds to the helpers used so far. */
  lemma ResolveKeyExtends(p: Progress, s: string, tags: seq<string>)
    ensures p.consumed <= ResolveKey(p, s, tags).consumed
  {
    ApplyTagsExtends(p, s, tags);
  }

  /** The helpers the loop over a prefix of the names uses come first among
      those of the whole loop. */
  lemma {:induction false} ConsumedPrefix(p: Progress, keys: seq<string>, tags: seq<string>, j: nat)
    requires j <= |keys|
    ensures ResolveKeys(p, keys[..j], tags).consumed <= ResolveKeys(p, keys, tags).consumed
    decreases |keys|
  {
    if j == |keys| {
      assert keys[..j] == keys;
    } else {
      var front := keys[..|keys| - 1];
      assert front[..j] == keys[..j];
      ConsumedPrefix(p, front, tags, j);
      ResolveKeyExtends(ResolveKeys(p, front, tags), keys[|keys| - 1], tags);
    }
  }

  /** A tag named `delete` makes the loop over the names use `S_delete` twice
      once the turn of a name S comes with `S_delete` non-empty. */
  lemma DeleteTagRepeats(d: Data, keys: seq<string>, tags: seq<string>, j: nat)
    requires forall k :: k in keys ==> k in d
    requires "delete" in tags
    requires j < |keys|
    requires Truthy(GetVar(ResolveKeys(Progress(d, []), keys[..j], tags).data, Helper(keys[j], "delete")))
    ensures var used := ResolveKeys(Progress(d, []), keys, tags).consumed;
            exists a, b :: 0 <= a < b < |used| && used[a] == used[b]
  {
    var p := ResolveKeys(Progress(d, []), keys[..j], tags);
    var s := keys[j];
    assert s in p.data by {
      assert forall k :: k in keys[..j] ==> k in keys;
      ResolveKeysKeepsNames(d, keys[..j], tags);
    }
    var upto := keys[..j + 1];
    assert upto[..j] == keys[..j] && upto[j] == s;
    var c := ResolveKeys(Progress(d, []), upto, tags).consumed;
    var turn := KeyConsumed(p.data, s, tags);
    assert c == p.consumed + turn by {
      ResolveKeyEffect(p, s, tags);
    }
    DeleteTagUsedTwice(p.data, s, tags);
    var i :| 0 <= i < |turn| - 1 && turn[i] == Helper(s, "delete");
    ConsumedPrefix(Progress(d, []), keys, tags, j + 1);
    RepeatInPrefix(ResolveKeys(Progress(d, []), keys, tags).consumed, p.consumed, turn, i);
  }

  lemma RepeatInPrefix(used: seq<string>, before: seq<string>, turn: seq<string>, i: nat)
    requires before + turn <= used
    requires i < |turn| - 1 && turn[i] == turn[|turn| - 1]
    ensures exists a, b :: 0 <= a < b < |used| && used[a] == used[b]
  {
    assert used[|before| + i] == (before + turn)[|before| + i];
    assert used[|before| + |turn| - 1] == (before + turn)[|before| + |turn| - 1];
  }

  /** A tag named `delete` makes `update_data` fail with the `KeyError` of
      deleting `S_delete` a second time, once the turn of a name S comes with
      `S_delete` non-empty. */
  lemma DeleteTagFails(d: Data, keys: seq<string>, ev: Evaluator, fuel: nat, j: nat)
    requires IsKeyOrder(keys, d)
    requires ExpandOf(GetVar(d, "OVERRIDES"), d, ev, fuel).Expanded?
    requires Truthy(ExpandOf(GetVar(d, "OVERRIDES"), d, ev, fuel).text)
    requires "delete" in Split(ExpandOf(GetVar(d, "OVERRIDES"), d, ev, fuel).text.value, ':')
    requires j < |keys|
    requires var tags := Split(ExpandOf(GetVar(d, "OVERRIDES"), d, ev, fuel).text.value, ':');
             Truthy(GetVar(ResolveKeys(Progress(d, []), keys[..j], tags).data, Helper(keys[j], "delete")))
    ensures UpdateDataSpec(d, keys, ev, fuel).1 == LookupFailure
  {
    var tags := Split(ExpandOf(GetVar(d, "OVERRIDES"), d, ev, fuel).text.value, ':');
    DeleteTagRepeats(d, keys, tags, j);
    UpdateDataEffect(d, keys, ev, fuel);
  }

  /** A line deletion keeps exactly the lines without the pattern: the result
      is empty exactly when every line contains it, and otherwise it is the
      kept lines, each after a newline. */
  lemma FilterLinesMeaning(text: string, pattern: string)
    ensures var kept := KeptLines(Split(text, '\n'), pattern);
            var r := FilterLinesOf(text, pattern);
            (r == "" <==> kept == []) &&
            (kept == [] <==> forall l :: l in Split(text, '\n') ==> Contains(l, pattern)) &&
            (kept != [] ==> r == "\n" + Join(kept, '\n') && Split(r[1..], '\n') == kept)
  {
    var lines := Split(text, '\n');
    var kept := KeptLines(lines, pattern);
    if kept != [] {
      RebuildJoin(kept);
      assert forall i :: 0 <= i < |kept| ==> kept[i] in kept;
      SplitJoin(kept, '\n');
      assert ("\n" + Join(kept, '\n'))[1..] == Join(kept, '\n');
      assert kept[0] in kept;
      assert kept[0] in lines && !Contains(kept[0], pattern);
    }
  }

  /** When no line contains the pattern, the deletion only puts a newline in
      front of the content. */
  lemma FilterLinesKeepsAll(text: string, pattern: string)
    requires forall l :: l in Split(text, '\n') ==> !Contains(l, pattern)
    ensures FilterLinesOf(text, pattern) == "\n" + text
  {
    var lines := Split(text, '\n');
    KeptAll(lines, pattern);
    RebuildJoin(lines);
  }

  lemma {:induction false} KeptAll(lines: seq<string>, pattern: string)
    requires forall l :: l in lines ==> !Contains(l, pattern)
    ensures KeptLines(lines, pattern) == lines
    decreases |lines|
  {
    if lines != [] {
      var front := lines[..|lines| - 1];
      assert forall l :: l in front ==> l in lines;
      KeptAll(front, pattern);
      assert front + [lines[|lines| - 1]] == lines;
    }
  }

  lemma {:induction false} RebuildJoin(lines: seq<string>)
    requires |lines| >= 1
    ensures Rebuild(lines) == "\n" + Join(lines, '\n')
    decreases |lines|
  {
    var front := lines[..|lines| - 1];
    var last := lines[|lines| - 1];
    if |lines| == 1 {
      assert front == [];
    } else {
      RebuildJoin(front);
      JoinSnoc(front, last, '\n');
      assert front + [last] == lines;
    }
  }
}
