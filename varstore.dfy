/** The variable store of `bin/oe/data.py` as a value: a dictionary from a
    variable name to a record with an optional content and a flag dictionary.
    The lookups are functions of the store; each update is a function from the
    old store to the new one, and the class `Store.DataStore` applies it in
    place. */
module VarStore {
  import opened Wrappers

  /** One variable: content absent until it is set, and its flags (every
      record the store creates has a flag dictionary, perhaps empty). */
  datatype Var = Var(content: Option<string>, flags: map<string, string>)

  type Data = map<string, Var>

  /** How an operation of the store ended: normally, with the `KeyError` of
      deleting an absent variable, with an exception raised by embedded code,
      or (in the model only) with its pass budget used up. */
  datatype Status = Success | LookupFailure | EvalFailure | OutOfFuel

  /** `init()`: the empty store, in which every lookup gives None. */
  function Init(): (d: Data)
    ensures forall n :: GetVar(d, n) == None && GetVarFlags(d, n) == None
  {
    map[]
  }

  /** `getVar` without expansion: None for an absent name or absent content. */
  function GetVar(d: Data, n: string): Option<string> {
    if n in d then d[n].content else None
  }

  /** `getVarFlags`: None for an absent name. */
  function GetVarFlags(d: Data, n: string): Option<map<string, string>> {
    if n in d then Some(d[n].flags) else None
  }

  /** `getVarFlag`: the flag `f` of `n`, None when either is absent. */
  function GetVarFlag(d: Data, n: string, f: string): (r: Option<string>)
    ensures r.Some? <==> GetVarFlags(d, n).Some? && f in GetVarFlags(d, n).value
    ensures r.Some? ==> r.value == GetVarFlags(d, n).value[f]
  {
    if n in d && f in d[n].flags then Some(d[n].flags[f]) else None
  }

  /** The names `keys` list every variable of `d` once: a snapshot of
      `d.keys()`, in the order the dictionary happens to give them. */
  predicate IsKeyOrder(keys: seq<string>, d: Data) {
    (forall i, j :: 0 <= i < j < |keys| ==> keys[i] != keys[j]) &&
    (forall k :: k in keys ==> k in d) && (forall k :: k in d ==> k in keys)
  }

  /** `initVar`: non-destructive; creates `n` with no content and no flags
      when it is absent, and changes nothing otherwise. */
  function InitVarIn(d: Data, n: string): (r: Data)
    ensures r.Keys == d.Keys + {n}
    ensures n in d ==> r == d
    ensures GetVar(r, n) == GetVar(d, n)
    ensures n !in d ==> GetVarFlags(r, n) == Some(map[])
    ensures forall m :: m != n && m in d ==> r[m] == d[m]
  {
    if n in d then d else d[n := Var(None, map[])]
  }

  /** `setVar`: afterwards `GetVar(r, n) == Some(v)`; the flags of `n` and
      every other variable are as before (a new `n` has no flags). */
  function SetVarIn(d: Data, n: string, v: string): (r: Data)
    ensures r.Keys == d.Keys + {n}
    ensures GetVar(r, n) == Some(v)
    ensures GetVarFlags(r, n) == Some(GetVarFlags(d, n).GetOr(map[]))
    ensures forall m :: m != n && m in d ==> r[m] == d[m]
  {
    var cur := InitVarIn(d, n)[n];
    d[n := Var(Some(v), cur.flags)]
  }

  /** `setVarFlag`: afterwards flag `f` of `n` is `v`; the other flags of `n`,
      the content of `n` (None for a new `n`) and every other variable are
      as before. */
  function SetVarFlagIn(d: Data, n: string, f: string, v: string): (r: Data)
    ensures r.Keys == d.Keys + {n}
    ensures GetVarFlag(r, n, f) == Some(v)
    ensures forall g :: g != f ==> GetVarFlag(r, n, g) == GetVarFlag(d, n, g)
    ensures forall m :: GetVar(r, m) == GetVar(d, m)
    ensures forall m :: m != n && m in d ==> r[m] == d[m]
  {
    var cur := InitVarIn(d, n)[n];
    d[n := Var(cur.content, cur.flags[f := v])]
  }

  /** `setVarFlags`: replaces the whole flag dictionary of `n` and leaves every
      content and every other variable alone. */
  function SetVarFlagsIn(d: Data, n: string, flags: map<string, string>): (r: Data)
    ensures r.Keys == d.Keys + {n}
    ensures GetVarFlags(r, n) == Some(flags)
    ensures forall m :: GetVar(r, m) == GetVar(d, m)
    ensures forall m :: m != n && m in d ==> r[m] == d[m]
  {
    var cur := InitVarIn(d, n)[n];
    d[n := Var(cur.content, flags)]
  }

  /** `delVar`: removes content and flags of `n` together; None stands for
      the `KeyError` of an absent `n`. */
  function DelVarIn(d: Data, n: string): (r: Option<Data>)
    ensures r.None? <==> n !in d
    ensures r.Some? ==> r.value.Keys == d.Keys - {n}
    ensures r.Some? ==> GetVar(r.value, n) == None && GetVarFlags(r.value, n) == None
    ensures r.Some? ==> forall m :: m != n && m in d ==> r.value[m] == d[m]
  {
    if n in d then Some(d - {n}) else None
  }

  /** Set and get: reading a name back after `setVar` gives what was written,
      whatever was there before, and no other name reads differently. */
  lemma SetThenGet(d: Data, n: string, v: string, m: string)
    ensures GetVar(SetVarIn(d, n, v), m) == if m == n then Some(v) else GetVar(d, m)
    ensures GetVarFlags(SetVarIn(d, n, v), m) == if m == n then Some(GetVarFlags(d, n).GetOr(map[])) else GetVarFlags(d, m)
  {
  }

  /** A variable that only `initVar` or `setVarFlag` ever touched has no
      content. */
  lemma FlagOnlyVariableHasNoContent(n: string, f: string, v: string)
    ensures GetVar(InitVarIn(Init(), n), n) == None
    ensures GetVar(SetVarFlagIn(Init(), n, f, v), n) == None
    ensures GetVar(SetVarFlagIn(InitVarIn(Init(), n), n, f, v), n) == None
  {
  }

  /** `initVar` is idempotent and keeps what an earlier write put there. */
  lemma InitVarIdempotent(d: Data, n: string)
    ensures InitVarIn(InitVarIn(d, n), n) == InitVarIn(d, n)
    ensures GetVarFlags(InitVarIn(d, n), n) == Some(GetVarFlags(d, n).GetOr(map[]))
  {
  }

  /** Deleting after a write removes the name entirely: neither the content
      nor the flags survive, and deleting it a second time fails. */
  lemma DeleteAfterSet(d: Data, n: string, v: string)
    ensures DelVarIn(SetVarIn(d, n, v), n).Some?
    ensures DelVarIn(DelVarIn(SetVarIn(d, n, v), n).value, n).None?
  {
  }

  /** A list is without repetition exactly when the names before its last
      are, and the last is not among them. */
  lemma DistinctSnoc(names: seq<string>)
    requires |names| > 0
    ensures var front := names[..|names| - 1];
            (forall i, j :: 0 <= i < j < |names| ==> names[i] != names[j]) <==>
            (forall i, j :: 0 <= i < j < |front| ==> front[i] != front[j]) && names[|names| - 1] !in front
  {
    var front := names[..|names| - 1];
    var last := names[|names| - 1];
    if last in front {
      var i :| 0 <= i < |front| && front[i] == last;
      assert names[i] == names[|names| - 1];
    } else if !forall i, j :: 0 <= i < j < |front| ==> front[i] != front[j] {
      var i, j :| 0 <= i < j < |front| && front[i] == front[j];
      assert names[i] == names[j];
    } else {
      forall i, j | 0 <= i < j < |names| ensures names[i] != names[j] {
        if j == |names| - 1 {
          assert names[i] == front[i];
        } else {
          assert front[i] == names[i] && front[j] == names[j];
        }
      }
    }
  }
}
