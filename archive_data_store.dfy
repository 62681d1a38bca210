/**
 * The archive store: one preference entry, `archives_key`, holding the set
 * of package names the user has archived. The entry may be absent (it is
 * never written before the first save or remove).
 */
module ArchiveStore {
  import opened Wrappers

  /** What a read of the entry yields: the stored set, or the empty set when the key is absent. */
  function ValueOf(stored: Option<set<string>>): (s: set<string>)
    ensures stored.None? ==> s == {}
    ensures stored.Some? ==> s == stored.value
  {
    match stored
    case None => {}
    case Some(v) => v
  }

  /** The entry after `saveValue(p)`: `{p}` on an absent key, otherwise the old set with `p` added. */
  function Saved(stored: Option<set<string>>, p: string): (r: Option<set<string>>)
    ensures r.Some? && r.value == ValueOf(stored) + {p}
    ensures p in ValueOf(r)
    ensures forall q :: q != p ==> (q in ValueOf(r) <==> q in ValueOf(stored))
  {
    if stored.None? then Some({p}) else Some(stored.value + {p})
  }

  /** The entry after `removeValue(p)`: the empty set on an absent key, otherwise the old set without `p`. */
  function Removed(stored: Option<set<string>>, p: string): (r: Option<set<string>>)
    ensures r.Some? && r.value == ValueOf(stored) - {p}
    ensures p !in ValueOf(r)
    ensures forall q :: q != p ==> (q in ValueOf(r) <==> q in ValueOf(stored))
  {
    if stored.None? then Some({}) else Some(stored.value - {p})
  }

  /** Saving the same package name twice stores the same set as saving it once. */
  lemma SaveIdempotent(stored: Option<set<string>>, p: string)
    ensures Saved(Saved(stored, p), p) == Saved(stored, p)
  {
  }

  /** Removing the same package name twice stores the same set as removing it once. */
  lemma RemoveIdempotent(stored: Option<set<string>>, p: string)
    ensures Removed(Removed(stored, p), p) == Removed(stored, p)
  {
    assert ValueOf(stored) - {p} - {p} == ValueOf(stored) - {p};
  }

  /** Archiving and then unarchiving `p` leaves every other archived name as it was. */
  lemma RemoveAfterSave(stored: Option<set<string>>, p: string)
    ensures ValueOf(Removed(Saved(stored, p), p)) == ValueOf(stored) - {p}
  {
  }

  /** Unarchiving and then archiving `p` leaves every other archived name as it was. */
  lemma SaveAfterRemove(stored: Option<set<string>>, p: string)
    ensures ValueOf(Saved(Removed(stored, p), p)) == ValueOf(stored) + {p}
  {
  }

  /** The store object; `stored` is the `archives_key` entry of its preferences. */
  class ArchiveDataStore {
    var stored: Option<set<string>>

    /**
     * A store over the preferences as they are: `entry` is the saved
     * `archives_key` entry, `None` when the file has never been written.
     */
    constructor (entry: Option<set<string>>)
      ensures stored == entry
      ensures GetValue() == ValueOf(entry)
      ensures entry.None? ==> GetValue() == {}
    {
      stored := entry;
    }

    /** `getValue`: the archived package names currently stored. */
    function GetValue(): (s: set<string>)
      reads this
      ensures s == ValueOf(stored)
    {
      ValueOf(stored)
    }

    /** `saveValue(p)`: read-modify-write of the entry inside one edit. */
    method SaveValue(p: string)
      modifies this
      ensures old(stored).None? ==> stored == Some({p})
      ensures old(stored).Some? ==> stored == Some(old(stored).value + {p})
      ensures stored == Saved(old(stored), p)
      ensures GetValue() == old(GetValue()) + {p}
    {
      if stored.None? {
        stored := Some({p});
      } else {
        stored := Some(stored.value + {p});
      }
    }

    /** `removeValue(p)`: read-modify-write of the entry inside one edit. */
    method RemoveValue(p: string)
      modifies this
      ensures old(stored).None? ==> stored == Some({})
      ensures old(stored).Some? ==> stored == Some(old(stored).value - {p})
      ensures stored == Removed(old(stored), p)
      ensures GetValue() == old(GetValue()) - {p}
    {
      if stored.None? {
        stored := Some({});
      } else {
        stored := Some(stored.value - {p});
      }
    }
  }
}
