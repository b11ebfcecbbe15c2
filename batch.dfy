/** The batch expander of `bin/oe/data.py` (`expandData`) as a function of the
    store: every name of a snapshot of the keys, in their order, that has a
    content gets that content expanded. The references are looked up in the
    read store, which is the altered store itself, as the earlier names left
    it, when none is given. */
module Batch {
  import opened Wrappers
  import opened VarStore
  import opened Expansion

  /** The store the references are looked up in: `readdata`, or the altered
      store itself when `readdata` is None. */
  function ReadStore(d: Data, readdata: Option<Data>): Data {
    match readdata
    case None => d
    case Some(rd) => rd
  }

  /** One iteration of the loop of `expandData` for the name `key`. */
  function ExpandKey(d: Data, key: string, readdata: Option<Data>, ev: Evaluator, fuel: nat): (r: (Data, Status))
    ensures r.0.Keys == d.Keys
    ensures forall n :: n in d ==> r.0[n].flags == d[n].flags
    ensures forall n :: n != key && n in d ==> r.0[n] == d[n]
    ensures GetVar(d, key) == None ==> r == (d, Success)
    ensures r.1 == Success <==> GetVar(d, key) == None || ExpandLoop(GetVar(d, key).value, ReadStore(d, readdata), ev, fuel).Expanded?
    ensures r.1 == Success && GetVar(d, key).Some? ==>
              GetVar(r.0, key) == ExpandLoop(GetVar(d, key).value, ReadStore(d, readdata), ev, fuel).text
    ensures r.1 != Success ==> r.0 == d
  {
    match GetVar(d, key)
    case None => (d, Success)
    case Some(val) =>
      match ExpandLoop(val, ReadStore(d, readdata), ev, fuel)
      case Raised => (d, EvalFailure)
      case Exhausted(_) => (d, OutOfFuel)
      case Expanded(t) => (SetVarIn(d, key, t.value), Success)
  }

  /** `expandData(d, readdata)` with the keys taken in the order `keys`; the
      first name whose expansion raises or runs out of passes ends the loop,
      with the names before it already rewritten. */
  function ExpandDataSpec(d: Data, keys: seq<string>, readdata: Option<Data>, ev: Evaluator, fuel: nat): (r: (Data, Status))
    ensures r.0.Keys == d.Keys
    ensures forall n :: n in d ==> r.0[n].flags == d[n].flags
    ensures forall n :: GetVar(r.0, n) == None <==> GetVar(d, n) == None
    ensures forall n :: n in d && n !in keys ==> r.0[n] == d[n]
    decreases |keys|
  {
    if keys == [] then (d, Success)
    else
      var prev := ExpandDataSpec(d, keys[..|keys| - 1], readdata, ev, fuel);
      assert forall n :: n in keys[..|keys| - 1] ==> n in keys;
      if prev.1 != Success then prev
      else ExpandKey(prev.0, keys[|keys| - 1], readdata, ev, fuel)
  }

  /** The loop ends at the first failure: what follows it changes nothing. */
  lemma {:induction false} ExpandDataStops(d: Data, keys: seq<string>, i: nat, readdata: Option<Data>, ev: Evaluator, fuel: nat)
    requires i <= |keys|
    requires ExpandDataSpec(d, keys[..i], readdata, ev, fuel).1 != Success
    ensures ExpandDataSpec(d, keys, readdata, ev, fuel) == ExpandDataSpec(d, keys[..i], readdata, ev, fuel)
    decreases |keys|
  {
    if i == |keys| {
      assert keys[..i] == keys;
    } else {
      var front := keys[..|keys| - 1];
      assert front[..i] == keys[..i];
      ExpandDataStops(d, front, i, readdata, ev, fuel);
    }
  }

  /** With a separate read store, and the keys distinct, each name that has
      a content ends up with the expansion of its old content against the
      read store, and the loop succeeds exactly when every one of these
      expansions gives a text. */
  lemma {:induction false} ExpandDataFromSource(d: Data, keys: seq<string>, rd: Data, ev: Evaluator, fuel: nat)
    requires forall i, j :: 0 <= i < j < |keys| ==> keys[i] != keys[j]
    ensures var r := ExpandDataSpec(d, keys, Some(rd), ev, fuel);
            (r.1 == Success <==>
               forall n :: n in keys && GetVar(d, n).Some? ==> ExpandLoop(GetVar(d, n).value, rd, ev, fuel).Expanded?) &&
            (r.1 == Success ==>
               forall n :: n in keys && GetVar(d, n).Some? ==> GetVar(r.0, n) == ExpandLoop(GetVar(d, n).value, rd, ev, fuel).text)
    decreases |keys|
  {
    if keys != [] {
      var front := keys[..|keys| - 1];
      var last := keys[|keys| - 1];
      DistinctSnoc(keys);
      ExpandDataFromSource(d, front, rd, ev, fuel);
      assert forall n :: n in keys <==> n in front || n == last;
      var prev := ExpandDataSpec(d, front, Some(rd), ev, fuel);
      assert GetVar(prev.0, last) == GetVar(d, last);
    }
  }

  /** When no content holds a `$`, the batch expander changes nothing. */
  lemma {:induction false} ExpandDataNoReferences(d: Data, keys: seq<string>, readdata: Option<Data>, ev: Evaluator, fuel: nat)
    requires forall n :: GetVar(d, n).Some? ==> '$' !in GetVar(d, n).value
    ensures ExpandDataSpec(d, keys, readdata, ev, fuel) == (d, Success)
    decreases |keys|
  {
    if keys != [] {
      ExpandDataNoReferences(d, keys[..|keys| - 1], readdata, ev, fuel);
      var last := keys[|keys| - 1];
      if GetVar(d, last).Some? {
        var val := GetVar(d, last).value;
        assert d[last] == Var(Some(val), d[last].flags);
        assert SetVarIn(d, last, val) == d;
      }
    }
  }
}
