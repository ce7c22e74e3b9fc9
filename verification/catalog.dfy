/**
  The worker and task catalogs (App.tsx `addWorker`, `addTask`,
  `handleDeleteWorker`, `handleDeleteTask`): plain lists of names from which
  a session's worker and task are chosen.
 */
module Catalog {
  import opened Seqs

  /** Adding a name appends it unless the catalog already lists it. */
  function AddName(names: seq<string>, name: string): (r: seq<string>)
    ensures name in r
    ensures forall x :: x in r <==> x in names || x == name
    ensures name in names ==> r == names
    ensures |names| <= |r| <= |names| + 1 && r[..|names|] == names
    ensures NoDuplicates(names) ==> NoDuplicates(r)
  {
    if name in names then names else names + [name]
  }

  /** Deleting a name drops every occurrence of it and keeps the rest in order. */
  function RemoveName(names: seq<string>, name: string): (r: seq<string>)
    ensures forall x :: x in r <==> x in names && x != name
    ensures forall x :: x != name ==> multiset(r)[x] == multiset(names)[x]
    ensures IsSubsequence(r, names)
    ensures name !in names ==> r == names
    ensures NoDuplicates(names) ==> NoDuplicates(r)
  {
    var keep := (x: string) => x != name;
    assert NoDuplicates(names) ==> NoDuplicates(Filter(names, keep)) by {
      if NoDuplicates(names) {
        FilterPreservesNoDuplicates(names, keep);
      }
    }
    assert name !in names ==> Filter(names, keep) == names by {
      if name !in names {
        FilterKeepsAll(names, keep);
      }
    }
    Filter(names, keep)
  }

  /** Adding an existing name again changes nothing. */
  lemma AddIdempotent(names: seq<string>, name: string)
    ensures AddName(AddName(names, name), name) == AddName(names, name)
  {
  }

  /** Deleting a name that was just added restores the catalog. */
  lemma {:induction false} RemoveUndoesAdd(names: seq<string>, name: string)
    requires name !in names
    ensures RemoveName(AddName(names, name), name) == names
  {
    var keep := (x: string) => x != name;
    FilterAppend(names, [name], keep);
    FilterKeepsAll(names, keep);
  }

  /** Deleting the same name twice is the same as deleting it once. */
  lemma RemoveIdempotent(names: seq<string>, name: string)
    ensures RemoveName(RemoveName(names, name), name) == RemoveName(names, name)
  {
  }
}
