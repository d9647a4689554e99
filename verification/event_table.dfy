/**
 The `events` object of the coordinator: a table from event name to the
 listener closure installed for it. A plain object enumerates keys that
 are not integer-like in insertion order. Signal and event names such as
 `SIGINT` and `message` are never integer-like. Assigning to an existing
 key keeps its place and deleting a key drops it, so the table is an
 association list.
 */
module EventTable {
  import opened Model

  type Table = seq<(string, Handler)>

  /** The names in the table, in enumeration order. */
  function Keys(t: Table): seq<string> {
    if t == [] then [] else [t[0].0] + Keys(t[1..])
  }

  /** `ks` with every occurrence of `x` dropped, the rest in order. */
  function Without(ks: seq<string>, x: string): seq<string> {
    if ks == [] then []
    else if ks[0] == x then Without(ks[1..], x)
    else [ks[0]] + Without(ks[1..], x)
  }

  /** No name is listed twice. */
  predicate Distinct(ks: seq<string>) {
    forall i, j :: 0 <= i < j < |ks| ==> ks[i] != ks[j]
  }

  /** Property lookup: the listener installed for `name`, if any. */
  function Find(t: Table, name: string): (r: Option<Handler>)
    ensures r.Some? <==> name in Keys(t)
    ensures r.Some? ==> (name, r.value) in t
  {
    if t == [] then None
    else if t[0].0 == name then Some(t[0].1)
    else Find(t[1..], name)
  }

  /** Where `name` sits in the table: its index, or `|t|` when absent. */
  function Position(t: Table, name: string): (i: nat)
    ensures i <= |t|
    ensures i < |t| ==> t[i].0 == name
    ensures forall j :: 0 <= j < i ==> t[j].0 != name
    ensures i < |t| <==> name in Keys(t)
  {
    if t == [] then 0
    else if t[0].0 == name then 0
    else 1 + Position(t[1..], name)
  }

  /** Property assignment `events[name] = h`: an existing name keeps its
      place, a new one goes last. */
  function Put(t: Table, name: string, h: Handler): (r: Table)
    ensures Find(r, name) == Some(h)
    ensures forall n :: n != name ==> Find(r, n) == Find(t, n)
    ensures Keys(r) == if name in Keys(t) then Keys(t) else Keys(t) + [name]
  {
    var i := Position(t, name);
    if i < |t| then
      OverwriteFind(t, i, name, h);
      OverwriteKeys(t, i, name, h);
      t[i := (name, h)]
    else
      AppendFind(t, (name, h));
      AppendKeys(t, (name, h));
      t + [(name, h)]
  }

  lemma {:induction false} OverwriteFind(t: Table, i: nat, name: string, h: Handler)
    requires i < |t| && t[i].0 == name
    requires forall j :: 0 <= j < i ==> t[j].0 != name
    ensures Find(t[i := (name, h)], name) == Some(h)
    ensures forall n :: n != name ==> Find(t[i := (name, h)], n) == Find(t, n)
    decreases i
  {
    var u := t[i := (name, h)];
    if i == 0 {
      assert u[1..] == t[1..];
    } else {
      OverwriteFind(t[1..], i - 1, name, h);
      assert u[0] == t[0] && u[1..] == t[1..][i - 1 := (name, h)];
      assert t[0].0 != name;
      forall n | n != name ensures Find(u, n) == Find(t, n) {
        if n != t[0].0 {
          assert Find(u, n) == Find(t[1..][i - 1 := (name, h)], n);
        }
      }
    }
  }

  lemma {:induction false} OverwriteKeys(t: Table, i: nat, name: string, h: Handler)
    requires i < |t| && t[i].0 == name
    ensures Keys(t[i := (name, h)]) == Keys(t)
    decreases i
  {
    var u := t[i := (name, h)];
    if i == 0 {
      assert u[1..] == t[1..];
    } else {
      OverwriteKeys(t[1..], i - 1, name, h);
      assert u[0] == t[0] && u[1..] == t[1..][i - 1 := (name, h)];
    }
  }

  lemma {:induction false} AppendFind(t: Table, x: (string, Handler))
    ensures forall n ::
              Find(t + [x], n) == if Find(t, n).Some? then Find(t, n) else if n == x.0 then Some(x.1) else None
    decreases |t|
  {
    if t == [] {
      assert t + [x] == [x];
    } else {
      AppendFind(t[1..], x);
      assert (t + [x])[1..] == t[1..] + [x];
    }
  }

  lemma {:induction false} AppendKeys(t: Table, x: (string, Handler))
    ensures Keys(t + [x]) == Keys(t) + [x.0]
    decreases |t|
  {
    if t == [] {
      assert t + [x] == [x];
    } else {
      AppendKeys(t[1..], x);
      assert (t + [x])[1..] == t[1..] + [x];
    }
  }

  /** Property deletion `delete events[name]`. */
  function Delete(t: Table, name: string): (r: Table)
    ensures Find(r, name) == None
    ensures forall n :: n != name ==> Find(r, n) == Find(t, n)
    ensures Keys(r) == Without(Keys(t), name)
  {
    if t == [] then []
    else if t[0].0 == name then Delete(t[1..], name)
    else [t[0]] + Delete(t[1..], name)
  }

  lemma {:induction false} WithoutMembers(ks: seq<string>, x: string)
    ensures forall n :: n in Without(ks, x) <==> n in ks && n != x
    decreases |ks|
  {
    if ks != [] {
      WithoutMembers(ks[1..], x);
      assert ks == [ks[0]] + ks[1..];
    }
  }

  lemma {:induction false} WithoutDistinct(ks: seq<string>, x: string)
    requires Distinct(ks)
    ensures Distinct(Without(ks, x))
    decreases |ks|
  {
    if ks != [] {
      assert Distinct(ks[1..]) by {
        forall i, j | 0 <= i < j < |ks[1..]| ensures ks[1..][i] != ks[1..][j] {
          assert ks[1..][i] == ks[i + 1] && ks[1..][j] == ks[j + 1];
        }
      }
      WithoutDistinct(ks[1..], x);
      WithoutMembers(ks[1..], x);
      if ks[0] != x {
        assert ks[0] !in ks[1..];
        DistinctCons(ks[0], Without(ks[1..], x));
      }
    }
  }

  lemma DistinctCons(x: string, ks: seq<string>)
    requires Distinct(ks) && x !in ks
    ensures Distinct([x] + ks)
  {
    forall i, j | 0 <= i < j < |[x] + ks| ensures ([x] + ks)[i] != ([x] + ks)[j] {
      if i == 0 {
        assert ([x] + ks)[j] == ks[j - 1];
      } else {
        assert ([x] + ks)[i] == ks[i - 1] && ([x] + ks)[j] == ks[j - 1];
      }
    }
  }

  lemma DistinctSnoc(ks: seq<string>, x: string)
    requires Distinct(ks) && x !in ks
    ensures Distinct(ks + [x])
  {
    forall i, j | 0 <= i < j < |ks + [x]| ensures (ks + [x])[i] != (ks + [x])[j] {
      if j == |ks| {
        assert (ks + [x])[i] == ks[i];
      } else {
        assert (ks + [x])[i] == ks[i] && (ks + [x])[j] == ks[j];
      }
    }
  }

  /** Assignment keeps the names distinct, whether it overwrites or adds. */
  lemma PutDistinct(t: Table, name: string, h: Handler)
    requires Distinct(Keys(t))
    ensures Distinct(Keys(Put(t, name, h)))
  {
    if name !in Keys(t) {
      DistinctSnoc(Keys(t), name);
    }
  }

  /** Deletion keeps the names distinct and drops exactly `name`. */
  lemma DeleteKeys(t: Table, name: string)
    requires Distinct(Keys(t))
    ensures Distinct(Keys(Delete(t, name)))
    ensures forall n :: n in Keys(Delete(t, name)) <==> n in Keys(t) && n != name
  {
    WithoutDistinct(Keys(t), name);
    WithoutMembers(Keys(t), name);
  }
}
