/**
 * Which environment variable every leaf of a configuration struct is loaded from, and which leaves are loaded at all
 * (backend/libs/config/config.go), stated over paths in the struct tree.
 */
module ConfigKeys {
  import opened Config

  // ----- Upper case, letter by letter -----

  /** Dashes become underscores, a to z the letter 32 codes lower in ASCII, and every other character stays. */
  lemma UpperIsUpperCase(s: string, i: nat)
    requires i < |s|
    ensures |Upper(s)| == |s|
    ensures s[i] == '-' ==> Upper(s)[i] == '_'
    ensures 'a' <= s[i] <= 'z' ==> Upper(s)[i] as int == s[i] as int - 32 && 'A' <= Upper(s)[i] <= 'Z'
    ensures s[i] != '-' && !('a' <= s[i] <= 'z') ==> Upper(s)[i] == s[i]
  {
  }

  // ----- Paths -----

  /** Positions of fields, from the outermost struct inwards. */
  type Path = seq<nat>

  /** The last field of the path is loaded, or makes the walk crash, and the walk gets there. */
  predicate Reaches(fields: seq<Field>, path: Path)
    decreases path
  {
    path != [] && path[0] < |fields| &&
    var f := fields[path[0]];
    f.settable && (f.anonymous || f.tag != "-") &&
    if |path| == 1 then f.body.Leaf? else f.body.Struct? && Reaches(f.body.fields, path[1..])
  }

  /** The fields along a path. */
  function Along(fields: seq<Field>, path: Path): (r: seq<Field>)
    requires Reaches(fields, path)
    ensures |r| == |path|
    decreases path
  {
    if |path| == 1 then [fields[path[0]]] else [fields[path[0]]] + Along(fields[path[0]].body.fields, path[1..])
  }

  /** Those that are not embedded. */
  function Named(fs: seq<Field>): (r: seq<Field>) {
    if fs == [] then [] else (if fs[0].anonymous then [] else [fs[0]]) + Named(fs[1..])
  }

  /** The position of the last field with a tag of its own, or -1. */
  function LastTagged(named: seq<Field>): (t: int)
    ensures -1 <= t < |named|
    ensures t >= 0 ==> named[t].tag != ""
    ensures forall i :: t < i < |named| ==> named[i].tag == ""
  {
    if named == [] then -1
    else if named[|named| - 1].tag != "" then |named| - 1
    else
      var t := LastTagged(named[..|named| - 1]);
      assert forall i :: t < i < |named| - 1 ==> named[i] == named[..|named| - 1][i];
      t
  }

  function UpperNames(named: seq<Field>): (r: seq<string>) {
    seq(|named|, i requires 0 <= i < |named| => Upper(named[i].name))
  }

  /** The words of a key: the last tag, if any, and the names below it, in upper case. */
  function Words(named: seq<Field>): (r: seq<string>) {
    var t := LastTagged(named);
    (if t >= 0 then [Upper(named[t].tag)] else []) + UpperNames(named[t + 1..])
  }

  /** Words joined by underscores; none stands before the first word. */
  function Join(words: seq<string>): (r: string) {
    if words == [] then ""
    else
      var p, last := Join(words[..|words| - 1]), words[|words| - 1];
      if p == "" then last else p + "_" + last
  }

  /** What a path stands for: a crash on an embedded non-struct, else its leaf under the key its words make. */
  ghost predicate StandsFor(fields: seq<Field>, path: Path, e: Entry)
    requires Reaches(fields, path)
  {
    var along := Along(fields, path);
    var leaf := along[|along| - 1];
    if leaf.anonymous then e == Crash
    else leaf.body.Leaf? && e == Assign(Join(Words(Named(along))), leaf.body.kind, leaf.body.slot)
  }

  // ----- The key of a path, step by step -----

  function KeyStep(prefix: string, f: Field): string { if f.anonymous then prefix else EnvKey(f, prefix) }

  /** The key the walk arrives at along fs, starting under a prefix. */
  function WalkKey(prefix: string, fs: seq<Field>): string {
    if fs == [] then prefix else KeyStep(WalkKey(prefix, fs[..|fs| - 1]), fs[|fs| - 1])
  }

  lemma {:induction false} WalkKeyCons(prefix: string, f: Field, fs: seq<Field>)
    ensures WalkKey(prefix, [f] + fs) == WalkKey(KeyStep(prefix, f), fs)
  {
    var all := [f] + fs;
    if fs == [] {
      assert all == [f];
      assert [f][..0] == [];
    } else {
      assert all[..|all| - 1] == [f] + fs[..|fs| - 1];
      WalkKeyCons(prefix, f, fs[..|fs| - 1]);
    }
  }

  lemma {:induction false} NamedSnoc(fs: seq<Field>, f: Field)
    ensures Named(fs + [f]) == Named(fs) + if f.anonymous then [] else [f]
  {
    if fs == [] {
      assert [] + [f] == [f];
      assert [f][1..] == [];
    } else {
      assert (fs + [f])[1..] == fs[1..] + [f];
      NamedSnoc(fs[1..], f);
    }
  }

  lemma LastTaggedSnoc(named: seq<Field>, f: Field)
    ensures LastTagged(named + [f]) == if f.tag != "" then |named| else LastTagged(named)
  {
    assert (named + [f])[..|named|] == named;
  }

  lemma UpperNamesSnoc(named: seq<Field>, f: Field)
    ensures UpperNames(named + [f]) == UpperNames(named) + [Upper(f.name)]
  {
  }

  lemma WordsSnoc(named: seq<Field>, f: Field)
    ensures Words(named + [f]) == if f.tag != "" then [Upper(f.tag)] else Words(named) + [Upper(f.name)]
  {
    var all, t := named + [f], LastTagged(named);
    LastTaggedSnoc(named, f);
    if f.tag != "" {
      assert all[|named| + 1..] == [] && UpperNames([]) == [];
      assert all[|named|] == f;
    } else {
      assert all[t + 1..] == named[t + 1..] + [f];
      UpperNamesSnoc(named[t + 1..], f);
      assert t >= 0 ==> all[t] == named[t];
    }
  }

  lemma JoinSnoc(words: seq<string>, w: string)
    ensures Join(words + [w]) == if Join(words) == "" then w else Join(words) + "_" + w
  {
    assert (words + [w])[..|words|] == words;
  }

  /** The walk's key is the words of the named fields, joined. */
  lemma {:induction false} WalkKeyIsJoin(fs: seq<Field>)
    ensures WalkKey("", fs) == Join(Words(Named(fs)))
  {
    if fs == [] {
      assert UpperNames([]) == [];
    } else {
      var p, f := fs[..|fs| - 1], fs[|fs| - 1];
      assert fs == p + [f];
      WalkKeyIsJoin(p);
      NamedSnoc(p, f);
      if f.anonymous {
        assert Named(fs) == Named(p);
      } else {
        WordsSnoc(Named(p), f);
        JoinSnoc(Words(Named(p)), Upper(f.name));
        JoinSnoc([], Upper(f.tag));
        assert [] + [Upper(f.tag)] == [Upper(f.tag)];
      }
    }
  }

  // ----- The list of assignments -----

  /** The entry at the end of a path that the walk entered under a prefix. */
  ghost predicate EntryOf(fields: seq<Field>, prefix: string, path: Path, e: Entry) {
    Reaches(fields, path) &&
    var along := Along(fields, path);
    var leaf := along[|along| - 1];
    if leaf.anonymous then e == Crash
    else leaf.body.Leaf? && e == Assign(WalkKey(prefix, along), leaf.body.kind, leaf.body.slot)
  }

  /** p comes before q in field order. */
  predicate Before(p: Path, q: Path)
    decreases p
  {
    p != [] && q != [] && (p[0] < q[0] || (p[0] == q[0] && Before(p[1..], q[1..])))
  }

  /** The paths, in field order and complete, whose entries these are. */
  ghost predicate Listed(fields: seq<Field>, prefix: string, paths: seq<Path>, entries: seq<Entry>) {
    && |paths| == |entries|
    && (forall i :: 0 <= i < |paths| ==> EntryOf(fields, prefix, paths[i], entries[i]))
    && (forall i, j :: 0 <= i < j < |paths| ==> Before(paths[i], paths[j]))
    && (forall p :: Reaches(fields, p) ==> p in paths)
  }

  /** The same for the paths that start with field k. */
  ghost predicate ListedAt(fields: seq<Field>, prefix: string, k: nat, paths: seq<Path>, entries: seq<Entry>) {
    && |paths| == |entries|
    && (forall i :: 0 <= i < |paths| ==> EntryOf(fields, prefix, paths[i], entries[i]) && paths[i][0] == k)
    && (forall i, j :: 0 <= i < j < |paths| ==> Before(paths[i], paths[j]))
    && (forall p :: Reaches(fields, p) && p[0] == k ==> p in paths)
  }

  function Under(k: nat, paths: seq<Path>): (r: seq<Path>) {
    seq(|paths|, i requires 0 <= i < |paths| => [k] + paths[i])
  }

  lemma UnderEntry(fields: seq<Field>, prefix: string, k: nat, path: Path, e: Entry)
    requires k < |fields| && fields[k].settable && (fields[k].anonymous || fields[k].tag != "-") && fields[k].body.Struct?
    requires EntryOf(fields[k].body.fields, KeyStep(prefix, fields[k]), path, e)
    ensures EntryOf(fields, prefix, [k] + path, e)
  {
    var f := fields[k];
    assert ([k] + path)[1..] == path;
    var along := Along(f.body.fields, path);
    assert Along(fields, [k] + path) == [f] + along;
    WalkKeyCons(prefix, f, along);
  }

  lemma UnderBefore(k: nat, p: Path, q: Path)
    requires Before(p, q)
    ensures Before([k] + p, [k] + q)
  {
    assert ([k] + p)[1..] == p && ([k] + q)[1..] == q;
  }

  /** The paths into the struct of field k. */
  lemma StructListed(fields: seq<Field>, prefix: string, k: nat, paths: seq<Path>, entries: seq<Entry>)
    requires k < |fields| && fields[k].settable && (fields[k].anonymous || fields[k].tag != "-") && fields[k].body.Struct?
    requires Listed(fields[k].body.fields, KeyStep(prefix, fields[k]), paths, entries)
    ensures ListedAt(fields, prefix, k, Under(k, paths), entries)
  {
    var under := Under(k, paths);
    forall i | 0 <= i < |under| ensures EntryOf(fields, prefix, under[i], entries[i]) && under[i][0] == k {
      UnderEntry(fields, prefix, k, paths[i], entries[i]);
    }
    forall i, j | 0 <= i < j < |under| ensures Before(under[i], under[j]) {
      UnderBefore(k, paths[i], paths[j]);
    }
    forall p | Reaches(fields, p) && p[0] == k ensures p in under {
      assert p[1..] in paths;
      var i :| 0 <= i < |paths| && paths[i] == p[1..];
      assert under[i] == [k] + p[1..] == p;
    }
  }

  /** The one path to a leaf or a crash at field k. */
  lemma LeafListed(fields: seq<Field>, prefix: string, k: nat)
    requires k < |fields| && fields[k].settable && (fields[k].anonymous || fields[k].tag != "-") && fields[k].body.Leaf?
    ensures ListedAt(fields, prefix, k, [[k]], FlattenField(fields[k], prefix))
  {
    var f := fields[k];
    assert Along(fields, [k]) == [f];
    assert WalkKey(prefix, [f]) == KeyStep(prefix, f) by {
      assert [f][..0] == [];
    }
    forall p | Reaches(fields, p) && p[0] == k ensures p == [k] {
    }
  }

  lemma {:induction false} FieldListed(fields: seq<Field>, prefix: string, k: nat) returns (paths: seq<Path>)
    requires k < |fields|
    ensures ListedAt(fields, prefix, k, paths, FlattenField(fields[k], prefix))
    decreases fields[k], 0
  {
    var f := fields[k];
    if !f.settable || (!f.anonymous && f.tag == "-") {
      paths := [];
    } else if f.body.Leaf? {
      LeafListed(fields, prefix, k);
      paths := [[k]];
    } else {
      var inner := AllListed(f.body.fields, KeyStep(prefix, f));
      StructListed(fields, prefix, k, inner, Flatten(f.body.fields, KeyStep(prefix, f)));
      paths := Under(k, inner);
    }
  }

  /** The paths that start at field k or later. */
  ghost predicate ListedFrom(fields: seq<Field>, prefix: string, k: nat, paths: seq<Path>, entries: seq<Entry>) {
    && |paths| == |entries|
    && (forall i :: 0 <= i < |paths| ==> EntryOf(fields, prefix, paths[i], entries[i]) && paths[i][0] >= k)
    && (forall i, j :: 0 <= i < j < |paths| ==> Before(paths[i], paths[j]))
    && (forall p :: Reaches(fields, p) && p[0] >= k ==> p in paths)
  }

  lemma JoinOrdered(k: nat, ps: seq<Path>, qs: seq<Path>)
    requires forall i, j :: 0 <= i < j < |ps| ==> Before(ps[i], ps[j])
    requires forall i, j :: 0 <= i < j < |qs| ==> Before(qs[i], qs[j])
    requires (forall i :: 0 <= i < |ps| ==> ps[i] != [] && ps[i][0] == k) && (forall i :: 0 <= i < |qs| ==> qs[i] != [] && qs[i][0] > k)
    ensures forall i, j :: 0 <= i < j < |ps + qs| ==> Before((ps + qs)[i], (ps + qs)[j])
  {
    var all := ps + qs;
    forall i, j | 0 <= i < j < |all| ensures Before(all[i], all[j]) {
      if j < |ps| {
        assert all[i] == ps[i] && all[j] == ps[j];
      } else if i < |ps| {
        assert all[i] == ps[i] && all[j] == qs[j - |ps|];
      } else {
        assert all[i] == qs[i - |ps|] && all[j] == qs[j - |ps|];
      }
    }
  }

  lemma JoinEntries(fields: seq<Field>, prefix: string, k: nat, ps: seq<Path>, es: seq<Entry>, qs: seq<Path>, ds: seq<Entry>)
    requires ListedAt(fields, prefix, k, ps, es) && ListedFrom(fields, prefix, k + 1, qs, ds)
    ensures forall i :: 0 <= i < |ps + qs| ==> EntryOf(fields, prefix, (ps + qs)[i], (es + ds)[i]) && (ps + qs)[i][0] >= k
  {
    forall i | 0 <= i < |ps + qs| ensures EntryOf(fields, prefix, (ps + qs)[i], (es + ds)[i]) && (ps + qs)[i][0] >= k {
      if i < |ps| {
        assert EntryOf(fields, prefix, ps[i], es[i]);
      } else {
        assert EntryOf(fields, prefix, qs[i - |ps|], ds[i - |ps|]);
      }
    }
  }

  lemma JoinListed(fields: seq<Field>, prefix: string, k: nat, ps: seq<Path>, es: seq<Entry>, qs: seq<Path>, ds: seq<Entry>)
    requires ListedAt(fields, prefix, k, ps, es) && ListedFrom(fields, prefix, k + 1, qs, ds)
    ensures ListedFrom(fields, prefix, k, ps + qs, es + ds)
  {
    JoinEntries(fields, prefix, k, ps, es, qs, ds);
    JoinOrdered(k, ps, qs);
    forall p | Reaches(fields, p) && p[0] >= k ensures p in ps + qs {
      assert if p[0] == k then p in ps else p in qs;
    }
  }

  lemma {:induction false} RestListed(fields: seq<Field>, prefix: string, k: nat) returns (paths: seq<Path>)
    requires k <= |fields|
    ensures ListedFrom(fields, prefix, k, paths, Flatten(fields[k..], prefix))
    decreases fields[k..], 1
  {
    if k == |fields| {
      paths := [];
    } else {
      assert fields[k..][0] == fields[k] && fields[k..][1..] == fields[k + 1..];
      var first := FieldListed(fields, prefix, k);
      var rest := RestListed(fields, prefix, k + 1);
      JoinListed(fields, prefix, k, first, FlattenField(fields[k], prefix), rest, Flatten(fields[k + 1..], prefix));
      paths := first + rest;
    }
  }

  lemma {:induction false} AllListed(fields: seq<Field>, prefix: string) returns (paths: seq<Path>)
    ensures Listed(fields, prefix, paths, Flatten(fields, prefix))
    decreases fields, 2
  {
    assert fields[0..] == fields;
    paths := RestListed(fields, prefix, 0);
  }

  /** These paths, in field order, are all those the walk reaches, and entry i is what path i stands for. */
  ghost predicate Describes(fields: seq<Field>, paths: seq<Path>, entries: seq<Entry>) {
    && |paths| == |entries|
    && (forall i :: 0 <= i < |paths| ==> Reaches(fields, paths[i]) && StandsFor(fields, paths[i], entries[i]))
    && (forall i, j :: 0 <= i < j < |paths| ==> Before(paths[i], paths[j]))
    && (forall p :: Reaches(fields, p) ==> p in paths)
  }

  /**
   * For every struct: the assignments the loader makes are, in field order, exactly one for each path of settable fields
   * that leads to a leaf with no named field on it tagged "-"; the key of each is the upper-cased tag of the last tagged
   * named field, or nothing when none is tagged, joined by underscores with the upper-cased names of the named fields below
   * it; embedded structs add nothing; and a crash stands exactly for a settable embedded non-struct.
   */
  lemma KeysFollowPaths(fields: seq<Field>) returns (paths: seq<Path>)
    ensures Describes(fields, paths, Flatten(fields, ""))
  {
    paths := AllListed(fields, "");
    var entries := Flatten(fields, "");
    forall i | 0 <= i < |paths| ensures Reaches(fields, paths[i]) && StandsFor(fields, paths[i], entries[i]) {
      assert EntryOf(fields, "", paths[i], entries[i]);
      WalkKeyIsJoin(Along(fields, paths[i]));
    }
  }

  /** So a leaf is assigned under a key if and only if some path leads to it with that key. */
  lemma AssignedIff(fields: seq<Field>, key: string, kind: Kind, slot: nat)
    ensures Assign(key, kind, slot) in Flatten(fields, "") <==>
            exists p :: Reaches(fields, p) && StandsFor(fields, p, Assign(key, kind, slot))
  {
    var paths := KeysFollowPaths(fields);
    var e, entries := Assign(key, kind, slot), Flatten(fields, "");
    if e in entries {
      var i :| 0 <= i < |entries| && entries[i] == e;
      assert StandsFor(fields, paths[i], e);
    }
    if p :| Reaches(fields, p) && StandsFor(fields, p, e) {
      var i :| 0 <= i < |paths| && paths[i] == p;
      assert StandsFor(fields, p, entries[i]);
    }
  }
}
