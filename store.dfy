/** The store of `bin/oe/data.py` as an object: the dictionary the functions
    of the source mutate in place is the field `vars`, and each of them is
    a method. Each mutating method is tied to the function of `VarStore`,
    `Batch` or `Overrides` that says what it does to the store. */
module Store {
  import opened Wrappers
  import opened Strings
  import opened VarStore
  import opened Expansion
  import opened Batch
  import opened Overrides

  class DataStore {
    var vars: Data

    /** `init()`: the empty store. */
    constructor ()
      ensures vars == map[]
      ensures forall n :: VarStore.GetVar(vars, n) == None && VarStore.GetVarFlags(vars, n) == None
    {
      vars := Init();
    }

    /** `initVar`: gives `n` an entry and a flag map, keeping what it has. */
    method InitVar(n: string)
      modifies this
      ensures vars == InitVarIn(old(vars), n)
    {
      if n !in vars {
        vars := vars[n := Var(None, map[])];
      }
    }

    /** `setVar`: the entry of `n` is created when missing, then its content
        is set. */
    method SetVar(n: string, v: string)
      modifies this
      ensures vars == SetVarIn(old(vars), n, v)
    {
      if n !in vars {
        InitVar(n);
      }
      vars := vars[n := Var(Some(v), vars[n].flags)];
    }

    /** `getVar(n, d)`: the content of `n`; None when `n` is missing or was
        only given flags. */
    method GetVar(n: string) returns (r: Option<string>)
      ensures r.Some? <==> n in vars && vars[n].content.Some?
      ensures r.Some? ==> r == vars[n].content
      ensures r == VarStore.GetVar(vars, n)
    {
      if n in vars {
        r := vars[n].content;
      } else {
        r := None;
      }
    }

    /** `getVar(n, d, 1)`: the content of `n`, expanded against the store. */
    method GetVarExpanded(n: string, ev: Evaluator, fuel: nat) returns (r: Outcome)
      ensures r == ExpandOf(VarStore.GetVar(vars, n), vars, ev, fuel)
      ensures VarStore.GetVar(vars, n) == None ==> r == Expanded(None)
      ensures r.Expanded? && r.text.Some? ==> Settled(r.text.value, vars, ev)
    {
      var val := GetVar(n);
      r := Expand(val, vars, ev, fuel);
    }

    /** `delVar`: removes the entry of `n`, content and flags together; a
        missing `n` is the `KeyError` of the source, and nothing changes. */
    method DelVar(n: string) returns (st: Status)
      modifies this
      ensures st == Success <==> n in old(vars)
      ensures st != Success ==> st == LookupFailure && vars == old(vars)
      ensures st == Success ==> Some(vars) == DelVarIn(old(vars), n)
    {
      if n !in vars {
        return LookupFailure;
      }
      vars := vars - {n};
      st := Success;
    }

    /** `setVarFlag`: the entry of `n` is created when missing, then flag `f`
        is set. */
    method SetVarFlag(n: string, f: string, v: string)
      modifies this
      ensures vars == SetVarFlagIn(old(vars), n, f, v)
    {
      if n !in vars {
        InitVar(n);
      }
      vars := vars[n := Var(vars[n].content, vars[n].flags[f := v])];
    }

    /** `getVarFlag`: flag `f` of `n`, None when `n` or the flag is missing. */
    method GetVarFlag(n: string, f: string) returns (r: Option<string>)
      ensures r.Some? <==> n in vars && f in vars[n].flags
      ensures r.Some? ==> r.value == vars[n].flags[f]
      ensures r == VarStore.GetVarFlag(vars, n, f)
    {
      if n in vars && f in vars[n].flags {
        r := Some(vars[n].flags[f]);
      } else {
        r := None;
      }
    }

    /** `setVarFlags`: the entry of `n` is created when missing, then its
        whole flag map is replaced. */
    method SetVarFlags(n: string, flags: map<string, string>)
      modifies this
      ensures vars == SetVarFlagsIn(old(vars), n, flags)
    {
      if n !in vars {
        InitVar(n);
      }
      vars := vars[n := Var(vars[n].content, flags)];
    }

    /** `getVarFlags`: the flag map of `n`, None when `n` is missing. */
    method GetVarFlags(n: string) returns (r: Option<map<string, string>>)
      ensures r.Some? <==> n in vars
      ensures r.Some? ==> r.value == vars[n].flags
      ensures r == VarStore.GetVarFlags(vars, n)
    {
      if n in vars {
        r := Some(vars[n].flags);
      } else {
        r := None;
      }
    }

    /** `getData`: the store itself. */
    method GetData() returns (d: Data)
      ensures d == vars
      ensures forall n :: VarStore.GetVar(d, n) == VarStore.GetVar(vars, n)
    {
      d := vars;
    }

    /** `setData`: the source only rebinds its own parameter, so the store
        is left as it is. */
    method SetData(newData: Data)
      ensures unchanged(this)
    {
    }

    /** The body of the loop of `expandData` for the name `key`. */
    method ExpandName(key: string, readdata: Option<Data>, ev: Evaluator, fuel: nat) returns (st: Status)
      modifies this
      ensures (vars, st) == ExpandKey(old(vars), key, readdata, ev, fuel)
    {
      var val := GetVar(key);
      if val.None? {
        return Success;
      }
      var rd := if readdata.None? then vars else readdata.value;
      var expanded := Expand(val, rd, ev, fuel);
      match expanded
      case Raised =>
        st := EvalFailure;
      case Exhausted(_) =>
        st := OutOfFuel;
      case Expanded(t) =>
        SetVar(key, t.value);
        st := Success;
    }

    /** `expandData(vars, readdata)` with the keys taken in the order `keys`:
        each name with a content gets its content expanded. */
    method ExpandData(keys: seq<string>, readdata: Option<Data>, ev: Evaluator, fuel: nat) returns (st: Status)
      requires IsKeyOrder(keys, vars)
      modifies this
      ensures (vars, st) == ExpandDataSpec(old(vars), keys, readdata, ev, fuel)
    {
      var i := 0;
      while i < |keys|
        invariant 0 <= i <= |keys|
        invariant (vars, Success) == ExpandDataSpec(old(vars), keys[..i], readdata, ev, fuel)
      {
        assert keys[..i + 1][..i] == keys[..i];
        st := ExpandName(keys[i], readdata, ev, fuel);
        if st != Success {
          ExpandDataStops(old(vars), keys, i + 1, readdata, ev, fuel);
          return;
        }
        i := i + 1;
      }
      assert keys[..|keys|] == keys;
      st := Success;
    }

    /** The body of the outer loop of `update_data` for the name `s`: the tag
        loop, then the append, the prepend and the line deletion, each name
        used being added to `dodel`. */
    method ResolveName(s: string, tags: seq<string>, dodel: seq<string>) returns (used: seq<string>)
      modifies this
      ensures Progress(vars, used) == ResolveKey(Progress(old(vars), dodel), s, tags)
    {
      ghost var start := Progress(vars, dodel);
      used := dodel;
      var k := 0;
      while k < |tags|
        invariant 0 <= k <= |tags|
        invariant Progress(vars, used) == ApplyTags(start, s, tags[..k])
      {
        assert tags[..k + 1][..k] == tags[..k];
        var name := Helper(s, tags[k]);
        var nameval := GetVar(name);
        if Truthy(nameval) {
          SetVar(s, nameval.value);
          used := used + [name];
        }
        k := k + 1;
      }
      assert tags[..|tags|] == tags;

      var name := Helper(s, "append");
      var nameval := GetVar(name);
      if Truthy(nameval) {
        var sval := GetVar(s);
        SetVar(s, sval.GetOr("") + nameval.value);
        used := used + [name];
      }
      assert Progress(vars, used) == AppendStep(ApplyTags(start, s, tags), s);

      name := Helper(s, "prepend");
      nameval := GetVar(name);
      if Truthy(nameval) {
        var sval := GetVar(s);
        SetVar(s, nameval.value + sval.GetOr(""));
        used := used + [name];
      }
      assert Progress(vars, used) == PrependStep(AppendStep(ApplyTags(start, s, tags), s), s);

      name := Helper(s, "delete");
      nameval := GetVar(name);
      if Truthy(nameval) {
        var sval := GetVar(s);
        if Truthy(sval) {
          var filtered := FilterLines(sval.value, Pattern(nameval.value));
          SetVar(s, filtered);
          used := used + [name];
        }
      }
    }

    /** The outer loop of `update_data` over the names `keys`: the turn of
        each, in order, collecting the helpers used. */
    method ResolveNames(keys: seq<string>, tags: seq<string>) returns (dodel: seq<string>)
      modifies this
      ensures Progress(vars, dodel) == ResolveKeys(Progress(old(vars), []), keys, tags)
    {
      dodel := [];
      var i := 0;
      while i < |keys|
        invariant 0 <= i <= |keys|
        invariant Progress(vars, dodel) == ResolveKeys(Progress(old(vars), []), keys[..i], tags)
      {
        assert keys[..i + 1][..i] == keys[..i];
        dodel := ResolveName(keys[i], tags, dodel);
        i := i + 1;
      }
      assert keys[..|keys|] == keys;
    }

    /** The final loop of `update_data`: every used helper is deleted, and
        the first that is no longer there is the `KeyError` that ends it. */
    method DeleteNames(names: seq<string>) returns (st: Status)
      modifies this
      ensures (vars, st) == DeleteAll(old(vars), names)
    {
      var j := 0;
      while j < |names|
        invariant 0 <= j <= |names|
        invariant (vars, Success) == DeleteAll(old(vars), names[..j])
      {
        ghost var before := vars;
        var ok := DelVar(names[j]);
        assert DeleteAll(old(vars), names[..j + 1]) == (if ok == Success then (vars, Success) else (before, LookupFailure)) by {
          assert names[..j + 1][..j] == names[..j];
        }
        if ok != Success {
          DeleteAllStops(old(vars), names, j + 1);
          return LookupFailure;
        }
        j := j + 1;
      }
      assert names[..|names|] == names;
      st := Success;
    }

    /** `update_data(vars)` with the keys taken in the order `keys` and at
        most `fuel` passes for expanding `OVERRIDES`. */
    method UpdateData(keys: seq<string>, ev: Evaluator, fuel: nat) returns (st: Status)
      requires IsKeyOrder(keys, vars)
      modifies this
      ensures (vars, st) == UpdateDataSpec(old(vars), keys, ev, fuel)
    {
      var raw := GetVar("OVERRIDES");
      var overrides := Expand(raw, vars, ev, fuel);
      match overrides
      case Raised =>
        return EvalFailure;
      case Exhausted(_) =>
        return OutOfFuel;
      case Expanded(ov) =>
        if !Truthy(ov) {
          return Success;
        }
        var tags := Split(ov.value, ':');
        var dodel := ResolveNames(keys, tags);
        st := DeleteNames(dodel);
    }
  }
}
