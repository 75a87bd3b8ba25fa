/** Recursive merging of a patch into a JSON tree. */
module DeepMerge {

  /** `Scalar` stands for any leaf other than None. */
  datatype Tree = None | Scalar(text: string) | List(items: seq<Tree>) | Dict(entries: map<string, Tree>)

  /** `dict.get`: None when the key is absent. */
  function Get(entries: map<string, Tree>, key: string): Tree {
    if key in entries then entries[key] else None
  }

  function Merge(base: Tree, patch: Tree): Tree
    decreases patch
  {
    if patch.None? then None
    else if base.Dict? && patch.Dict? then
      Dict(map key | key in base.entries.Keys + patch.entries.Keys ::
             if key in patch.entries then Merge(Get(base.entries, key), patch.entries[key]) else base.entries[key])
    else patch
  }

  /** The merge, assigning the patch's keys one at a time into a copy of the base. */
  method DeepMerge(base: Tree, patch: Tree) returns (merged: Tree)
    ensures merged == Merge(base, patch)
    decreases patch
  {
    if patch.None? {
      return None;
    }
    if !base.Dict? || !patch.Dict? {
      return patch;
    }
    var entries := base.entries;
    var left := patch.entries.Keys;
    while left != {}
      invariant left <= patch.entries.Keys
      invariant entries.Keys == base.entries.Keys + (patch.entries.Keys - left)
      invariant forall k :: k in entries ==>
                  entries[k] == if k in patch.entries.Keys - left then Merge(Get(base.entries, k), patch.entries[k])
                                else base.entries[k]
      decreases left
    {
      var key :| key in left;
      var value := DeepMerge(Get(entries, key), patch.entries[key]);
      entries := entries[key := value];
      left := left - {key};
    }
    merged := Dict(entries);
  }

  /** A tree merged into itself is unchanged. */
  lemma {:induction false} MergeSelf(t: Tree)
    ensures Merge(t, t) == t
  {
    if t.Dict? {
      forall key | key in t.entries
        ensures Merge(Get(t.entries, key), t.entries[key]) == t.entries[key]
      {
        MergeSelf(t.entries[key]);
      }
    }
  }

  /** Merging the same patch again changes nothing. */
  lemma {:induction false} MergeTwice(base: Tree, patch: Tree)
    ensures Merge(Merge(base, patch), patch) == Merge(base, patch)
    decreases patch
  {
    if base.Dict? && patch.Dict? {
      var once := Merge(base, patch);
      forall key | key in patch.entries
        ensures Merge(Get(once.entries, key), patch.entries[key]) == once.entries[key]
      {
        MergeTwice(Get(base.entries, key), patch.entries[key]);
      }
      assert once.entries.Keys + patch.entries.Keys == once.entries.Keys;
      assert Merge(once, patch).entries == once.entries;
    } else if !patch.None? {
      MergeSelf(patch);
    }
  }

  /** What a path of keys finds in a tree; None also where the path leaves it. */
  function At(t: Tree, path: seq<string>): Tree
    decreases |path|
  {
    if path == [] then t else if t.Dict? then At(Get(t.entries, path[0]), path[1..]) else None
  }

  /** The patch says nothing along the path: at some key a dictionary of the patch has no such entry. */
  predicate Silent(patch: Tree, path: seq<string>)
    decreases |path|
  {
    path != [] && patch.Dict? && (path[0] !in patch.entries || Silent(patch.entries[path[0]], path[1..]))
  }

  /** Dictionaries all the way down the base's path. */
  predicate Rooted(base: Tree, path: seq<string>)
    decreases |path|
  {
    path != [] ==> base.Dict? && path[0] in base.entries && Rooted(base.entries[path[0]], path[1..])
  }

  /** Whatever the patch does not mention, at any depth, keeps its base value. */
  lemma {:induction false} UnmentionedIsKept(base: Tree, patch: Tree, path: seq<string>)
    requires Rooted(base, path) && Silent(patch, path)
    ensures At(Merge(base, patch), path) == At(base, path)
    decreases |path|
  {
    if path[0] in patch.entries {
      UnmentionedIsKept(base.entries[path[0]], patch.entries[path[0]], path[1..]);
    }
  }

  /** A key holds None after a merge of dictionaries exactly when the patch put it there, or the base kept it. */
  lemma NoneExactly(base: Tree, patch: Tree, key: string)
    requires base.Dict? && patch.Dict?
    ensures var entries := Merge(base, patch).entries;
            key in entries && entries[key] == None <==>
            if key in patch.entries then patch.entries[key] == None else key in base.entries && base.entries[key] == None
  {
    if key in patch.entries && !patch.entries[key].None? {
      assert Merge(Get(base.entries, key), patch.entries[key]) != None;
    }
  }

  /**
   * On every path of the patch the patch wins: a leaf, a list or a null of it stands in the merged tree, a dictionary
   * of it replaces what is none and joins what is one.
   */
  lemma {:induction false} PatchWins(base: Tree, patch: Tree, path: seq<string>)
    requires Rooted(patch, path)
    ensures var (before, wanted, merged) := (At(base, path), At(patch, path), At(Merge(base, patch), path));
            if before.Dict? && wanted.Dict?
            then merged.Dict? && merged.entries.Keys == before.entries.Keys + wanted.entries.Keys
            else merged == wanted
    decreases |path|
  {
    if path != [] && base.Dict? {
      PatchWins(Get(base.entries, path[0]), patch.entries[path[0]], path[1..]);
    }
  }

  /** The merged tree has the paths of the patch, and those of the base on which the patch is silent; no others. */
  lemma {:induction false} PathsExactly(base: Tree, patch: Tree, path: seq<string>)
    ensures Rooted(Merge(base, patch), path) <==>
            Rooted(patch, path) || (Rooted(base, path) && Silent(patch, path))
    decreases |path|
  {
    if path != [] && base.Dict? && patch.Dict? && path[0] in patch.entries {
      PathsExactly(Get(base.entries, path[0]), patch.entries[path[0]], path[1..]);
      assert !(Rooted(None, path[1..]) && Silent(patch.entries[path[0]], path[1..]));
    }
  }
}
