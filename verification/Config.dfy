/**
 * The environment loader of backend/libs/config/config.go: a recursive walk over a struct that assigns its leaves in place.
 * A struct's shape is a tree whose leaves name slots of a memory array; strconv is a parameter.
 */
module Config {
  import opened Options

  datatype Kind = String | Bool | Int(bits: nat) | Uint(bits: nat) | Float(bits: nat) | Unsupported

  datatype Value = Text(s: string) | Flag(b: bool) | Whole(n: int) | Decimal(r: real)

  datatype Field = Field(name: string, tag: string, settable: bool, anonymous: bool, body: Body)

  datatype Body = Leaf(kind: Kind, slot: nat) | Struct(fields: seq<Field>)

  /** Crashed is reflect's panic on asking an embedded non-struct for its fields. */
  datatype Outcome = Loaded | ParseFailed(key: string) | Crashed

  type Env = map<string, string>
  type Strconv = (Kind, string) -> Option<Value>

  // ----- Keys -----

  function UpperChar(c: char): (r: char) {
    if c == '-' then '_' else if 'a' <= c <= 'z' then (c as int - 'a' as int + 'A' as int) as char else c
  }

  function Upper(s: string): (r: string)
    ensures |r| == |s|
  {
    seq(|s|, i requires 0 <= i < |s| => UpperChar(s[i]))
  }

  /** normalizeKey, over ASCII. */
  function NormalizeKey(prefix: string, key: string): (r: string) {
    if prefix == "" then Upper(key) else prefix + "_" + Upper(key)
  }

  ghost predicate Normal(s: string) {
    forall i :: 0 <= i < |s| ==> s[i] != '-' && !('a' <= s[i] <= 'z')
  }

  /** Keys hold no dash and no lower-case letter, and normalizing a key again changes nothing. */
  lemma NormalizedKeysAreNormal(prefix: string, key: string)
    requires Normal(prefix)
    ensures Normal(NormalizeKey(prefix, key))
    ensures NormalizeKey("", NormalizeKey(prefix, key)) == NormalizeKey(prefix, key)
  {
    var k := NormalizeKey(prefix, key);
    assert Normal(Upper(key));
    assert Normal(k);
    assert forall i :: 0 <= i < |k| ==> UpperChar(k[i]) == k[i];
  }

  function EnvKey(f: Field, prefix: string): (r: string) {
    if f.tag != "" then NormalizeKey("", f.tag) else NormalizeKey(prefix, f.name)
  }

  // ----- The flat form -----

  datatype Entry = Assign(key: string, kind: Kind, slot: nat) | Crash

  /** The struct tree as the list of assignments it stands for. */
  function Flatten(fields: seq<Field>, prefix: string): (r: seq<Entry>)
    decreases fields, 1
  {
    if fields == [] then [] else FlattenField(fields[0], prefix) + Flatten(fields[1..], prefix)
  }

  function FlattenField(f: Field, prefix: string): (r: seq<Entry>)
    decreases f, 0
  {
    if !f.settable then []
    else if f.anonymous then (if f.body.Struct? then Flatten(f.body.fields, prefix) else [Crash])
    else if f.tag == "-" then []
    else if f.body.Struct? then Flatten(f.body.fields, EnvKey(f, prefix))
    else [Assign(EnvKey(f, prefix), f.body.kind, f.body.slot)]
  }

  /** assign: strings always succeed, kinds it does not know never do. */
  function Convert(kind: Kind, text: string, strconv: Strconv): (r: Option<Value>) {
    if kind.String? then Some(Text(text)) else if kind.Unsupported? then None else strconv(kind, text)
  }

  /** Whether an entry stops the loading. */
  predicate Fails(e: Entry, env: Env, strconv: Strconv) {
    e.Crash? || (e.key in env && Convert(e.kind, env[e.key], strconv).None?)
  }

  function Failure(e: Entry): Outcome { if e.Crash? then Crashed else ParseFailed(e.key) }

  ghost predicate InRange(entries: seq<Entry>, size: nat) {
    forall i :: 0 <= i < |entries| && entries[i].Assign? ==> entries[i].slot < size
  }

  /** One assignment to memory. */
  function Put(e: Entry, env: Env, strconv: Strconv, mem: seq<Value>): (r: seq<Value>)
    requires !Fails(e, env, strconv) && e.slot < |mem|
    ensures |r| == |mem|
  {
    if e.key in env then mem[e.slot := Convert(e.kind, env[e.key], strconv).value] else mem
  }

  /** The assignments in order, up to the first that fails. */
  function ApplyAll(entries: seq<Entry>, env: Env, strconv: Strconv, mem: seq<Value>): (r: (seq<Value>, Outcome))
    requires InRange(entries, |mem|)
    ensures |r.0| == |mem|
  {
    if entries == [] then (mem, Loaded)
    else if Fails(entries[0], env, strconv) then (mem, Failure(entries[0]))
    else ApplyAll(entries[1..], env, strconv, Put(entries[0], env, strconv, mem))
  }

  lemma {:induction false} ApplyConcat(a: seq<Entry>, b: seq<Entry>, env: Env, strconv: Strconv, mem: seq<Value>)
    requires InRange(a, |mem|) && InRange(b, |mem|)
    ensures InRange(a + b, |mem|)
    ensures var first := ApplyAll(a, env, strconv, mem);
            ApplyAll(a + b, env, strconv, mem) == if first.1.Loaded? then ApplyAll(b, env, strconv, first.0) else first
  {
    if a == [] {
      assert a + b == b;
    } else {
      assert (a + b)[1..] == a[1..] + b;
      if !Fails(a[0], env, strconv) {
        ApplyConcat(a[1..], b, env, strconv, Put(a[0], env, strconv, mem));
      }
    }
  }

  // ----- The walk -----

  /** populateFromEnv: the recursive in-place walk is the flat list of assignments. */
  method PopulateFromEnv(fields: seq<Field>, prefix: string, env: Env, strconv: Strconv, mem: array<Value>) returns (outcome: Outcome)
    requires InRange(Flatten(fields, prefix), mem.Length)
    modifies mem
    ensures (mem[..], outcome) == ApplyAll(Flatten(fields, prefix), env, strconv, old(mem[..]))
    decreases fields, 1
  {
    var i := 0;
    assert fields[0..] == fields;
    while i < |fields|
      invariant 0 <= i <= |fields| && InRange(Flatten(fields[i..], prefix), mem.Length)
      invariant ApplyAll(Flatten(fields, prefix), env, strconv, old(mem[..])) == ApplyAll(Flatten(fields[i..], prefix), env, strconv, mem[..])
    {
      SplitFirst(fields[i..], prefix, env, strconv, mem[..]);
      assert fields[i..][1..] == fields[i + 1..] && fields[i..][0] == fields[i];
      outcome := PopulateField(fields[i], prefix, env, strconv, mem);
      if !outcome.Loaded? {
        return;
      }
      i := i + 1;
    }
    outcome := Loaded;
  }

  /** The body of that loop for one field. */
  method PopulateField(f: Field, prefix: string, env: Env, strconv: Strconv, mem: array<Value>) returns (outcome: Outcome)
    requires InRange(FlattenField(f, prefix), mem.Length)
    modifies mem
    ensures (mem[..], outcome) == ApplyAll(FlattenField(f, prefix), env, strconv, old(mem[..]))
    decreases f, 0
  {
    if !f.settable {
      return Loaded;
    }
    if f.anonymous {
      if f.body.Leaf? {
        return Crashed;
      }
      outcome := PopulateFromEnv(f.body.fields, prefix, env, strconv, mem);
      return;
    }
    if f.tag == "-" {
      return Loaded;
    }
    var key := EnvKey(f, prefix);
    if f.body.Struct? {
      outcome := PopulateFromEnv(f.body.fields, key, env, strconv, mem);
    } else {
      assert FlattenField(f, prefix)[0].slot < mem.Length;
      outcome := AssignLeaf(key, f.body.kind, f.body.slot, env, strconv, mem);
    }
  }

  /** One leaf: looked up, converted and set. */
  method AssignLeaf(key: string, kind: Kind, slot: nat, env: Env, strconv: Strconv, mem: array<Value>) returns (outcome: Outcome)
    requires slot < mem.Length
    modifies mem
    ensures (mem[..], outcome) == ApplyAll([Assign(key, kind, slot)], env, strconv, old(mem[..]))
  {
    ghost var e := Assign(key, kind, slot);
    assert [e][1..] == [] && [e][0] == e;
    if key in env {
      var v := Convert(kind, env[key], strconv);
      if v.None? {
        return ParseFailed(key);
      }
      mem[slot] := v.value;
      assert mem[..] == Put(e, env, strconv, old(mem[..]));
    }
    outcome := Loaded;
  }

  /** The walk's next field, then the rest. */
  lemma SplitFirst(fields: seq<Field>, prefix: string, env: Env, strconv: Strconv, mem: seq<Value>)
    requires fields != [] && InRange(Flatten(fields, prefix), |mem|)
    ensures InRange(FlattenField(fields[0], prefix), |mem|) && InRange(Flatten(fields[1..], prefix), |mem|)
    ensures var first := ApplyAll(FlattenField(fields[0], prefix), env, strconv, mem);
            ApplyAll(Flatten(fields, prefix), env, strconv, mem) ==
            if first.1.Loaded? then ApplyAll(Flatten(fields[1..], prefix), env, strconv, first.0) else first
  {
    var a, b := FlattenField(fields[0], prefix), Flatten(fields[1..], prefix);
    assert Flatten(fields, prefix) == a + b;
    forall i | 0 <= i < |a| && a[i].Assign? ensures a[i].slot < |mem| {
      assert a[i] == (a + b)[i];
    }
    forall i | 0 <= i < |b| && b[i].Assign? ensures b[i].slot < |mem| {
      assert b[i] == (a + b)[|a| + i];
    }
    ApplyConcat(a, b, env, strconv, mem);
  }

  // ----- What loading does -----

  /** How many entries are applied before the first failing one. */
  function Reach(entries: seq<Entry>, env: Env, strconv: Strconv): (n: nat)
    ensures n <= |entries|
  {
    if entries == [] || Fails(entries[0], env, strconv) then 0 else 1 + Reach(entries[1..], env, strconv)
  }

  ghost predicate DistinctSlots(entries: seq<Entry>) {
    forall i, j :: 0 <= i < j < |entries| && entries[i].Assign? && entries[j].Assign? ==> entries[i].slot != entries[j].slot
  }

  /** The text parses to v as this kind: a string is itself, a kind the loader does not know never parses. */
  predicate ParsesTo(kind: Kind, text: string, strconv: Strconv, v: Value) {
    if kind.String? then v == Text(text) else !kind.Unsupported? && strconv(kind, text) == Some(v)
  }

  /** Loading stops here: at an embedded non-struct, or at a variable that is set and does not parse. */
  predicate Blocks(e: Entry, env: Env, strconv: Strconv) {
    e.Crash? || (e.key in env && !e.kind.String? && (e.kind.Unsupported? || strconv(e.kind, env[e.key]).None?))
  }

  /** An applied leaf holds its parsed environment value, or what it held before when its variable is unset. */
  ghost predicate LeafSet(e: Entry, env: Env, strconv: Strconv, before: Value, after: Value) {
    e.Assign? && if e.key in env then ParsesTo(e.kind, env[e.key], strconv, after) else after == before
  }

  lemma {:induction false} OutcomeAtReach(entries: seq<Entry>, env: Env, strconv: Strconv, mem: seq<Value>)
    requires InRange(entries, |mem|)
    ensures var n := Reach(entries, env, strconv);
            if n == |entries| then ApplyAll(entries, env, strconv, mem).1 == Loaded
            else Fails(entries[n], env, strconv) && ApplyAll(entries, env, strconv, mem).1 == Failure(entries[n])
  {
    if entries != [] && !Fails(entries[0], env, strconv) {
      OutcomeAtReach(entries[1..], env, strconv, Put(entries[0], env, strconv, mem));
    }
  }

  /** A slot that no applied entry names is as it was. */
  lemma {:induction false} UnnamedSlotKept(entries: seq<Entry>, env: Env, strconv: Strconv, mem: seq<Value>, s: nat)
    requires InRange(entries, |mem|) && s < |mem|
    requires forall i :: 0 <= i < Reach(entries, env, strconv) && entries[i].Assign? ==> entries[i].slot != s
    ensures ApplyAll(entries, env, strconv, mem).0[s] == mem[s]
  {
    if entries != [] && !Fails(entries[0], env, strconv) {
      var tail := entries[1..];
      forall j | 0 <= j < Reach(tail, env, strconv) && tail[j].Assign? ensures tail[j].slot != s {
        assert tail[j] == entries[j + 1];
      }
      assert entries[0].slot != s;
      UnnamedSlotKept(tail, env, strconv, Put(entries[0], env, strconv, mem), s);
    }
  }

  /** Every entry before the first failing one is applied. */
  lemma {:induction false} AppliedLeafSet(entries: seq<Entry>, env: Env, strconv: Strconv, mem: seq<Value>, i: nat)
    requires InRange(entries, |mem|) && DistinctSlots(entries) && i < Reach(entries, env, strconv)
    ensures entries[i].Assign?
    ensures LeafSet(entries[i], env, strconv, mem[entries[i].slot], ApplyAll(entries, env, strconv, mem).0[entries[i].slot])
  {
    var tail, e := entries[1..], entries[0];
    var mem1 := Put(e, env, strconv, mem);
    forall j | 0 <= j < |tail| && tail[j].Assign? ensures tail[j].slot != e.slot {
      assert tail[j] == entries[j + 1];
    }
    if i == 0 {
      UnnamedSlotKept(tail, env, strconv, mem1, e.slot);
    } else {
      AppliedLeafSet(tail, env, strconv, mem1, i - 1);
      assert tail[i - 1].slot != e.slot;
    }
  }

  /**
   * With n the position of the first entry that blocks (or their number): the outcome is that failure, or success; every
   * leaf before it holds its parsed environment value, or its prior value when its variable is unset; every other slot is
   * as it was.
   */
  lemma LoadingSetsExactly(entries: seq<Entry>, env: Env, strconv: Strconv, mem: seq<Value>)
    requires InRange(entries, |mem|) && DistinctSlots(entries)
    ensures var n, r := Reach(entries, env, strconv), ApplyAll(entries, env, strconv, mem);
            && (if n == |entries| then r.1 == Loaded
                else Blocks(entries[n], env, strconv) && r.1 == if entries[n].Crash? then Crashed else ParseFailed(entries[n].key))
            && (forall i :: 0 <= i < n ==>
                  && !Blocks(entries[i], env, strconv)
                  && entries[i].Assign? && LeafSet(entries[i], env, strconv, mem[entries[i].slot], r.0[entries[i].slot]))
            && (forall s :: 0 <= s < |mem| && (forall i :: 0 <= i < n && entries[i].Assign? ==> entries[i].slot != s) ==> r.0[s] == mem[s])
  {
    OutcomeAtReach(entries, env, strconv, mem);
    var n, r := Reach(entries, env, strconv), ApplyAll(entries, env, strconv, mem);
    forall i | 0 <= i < n
      ensures !Blocks(entries[i], env, strconv)
      ensures entries[i].Assign? && LeafSet(entries[i], env, strconv, mem[entries[i].slot], r.0[entries[i].slot])
    {
      AppliedLeafSet(entries, env, strconv, mem, i);
    }
    forall s | 0 <= s < |mem| && (forall i :: 0 <= i < n && entries[i].Assign? ==> entries[i].slot != s) ensures r.0[s] == mem[s] {
      UnnamedSlotKept(entries, env, strconv, mem, s);
    }
  }

  /** Whether slot s is written. */
  predicate Writes(entries: seq<Entry>, env: Env, strconv: Strconv, s: nat) {
    if entries == [] || Fails(entries[0], env, strconv) then false
    else (entries[0].slot == s && entries[0].key in env) || Writes(entries[1..], env, strconv, s)
  }

  /** The outcome and every written slot do not depend on what memory held before; the other slots are kept. */
  lemma {:induction false} MemoryOnlyShowsThrough(entries: seq<Entry>, env: Env, strconv: Strconv, m1: seq<Value>, m2: seq<Value>, s: nat)
    requires |m1| == |m2| && InRange(entries, |m1|) && s < |m1|
    ensures var r1, r2 := ApplyAll(entries, env, strconv, m1), ApplyAll(entries, env, strconv, m2);
            && r1.1 == r2.1
            && (if Writes(entries, env, strconv, s) || m1[s] == m2[s] then r1.0[s] == r2.0[s] else r1.0[s] == m1[s] && r2.0[s] == m2[s])
            && (!Writes(entries, env, strconv, s) ==> r1.0[s] == m1[s])
  {
    if entries != [] && !Fails(entries[0], env, strconv) {
      MemoryOnlyShowsThrough(entries[1..], env, strconv, Put(entries[0], env, strconv, m1), Put(entries[0], env, strconv, m2), s);
    }
  }

  /** A second pass over the same environment ends the same way and changes nothing. */
  lemma LoadingTwiceIsLoadingOnce(entries: seq<Entry>, env: Env, strconv: Strconv, mem: seq<Value>)
    requires InRange(entries, |mem|)
    ensures var r := ApplyAll(entries, env, strconv, mem); ApplyAll(entries, env, strconv, r.0) == r
  {
    var r := ApplyAll(entries, env, strconv, mem);
    var again := ApplyAll(entries, env, strconv, r.0);
    forall s: nat | s < |mem| ensures again.0[s] == r.0[s] {
      MemoryOnlyShowsThrough(entries, env, strconv, r.0, mem, s);
    }
    assert again.0 == r.0;
    if mem != [] {
      MemoryOnlyShowsThrough(entries, env, strconv, r.0, mem, 0);
    } else {
      assert r.0 == mem;
    }
  }

  /** The same two facts about the walk itself, run twice on the same memory. */
  method LoadTwice(fields: seq<Field>, env: Env, strconv: Strconv, mem: array<Value>) returns (first: Outcome, second: Outcome)
    requires InRange(Flatten(fields, ""), mem.Length)
    modifies mem
    ensures first == second && (mem[..], first) == ApplyAll(Flatten(fields, ""), env, strconv, old(mem[..]))
  {
    LoadingTwiceIsLoadingOnce(Flatten(fields, ""), env, strconv, mem[..]);
    first := PopulateFromEnv(fields, "", env, strconv, mem);
    second := PopulateFromEnv(fields, "", env, strconv, mem);
  }
}
