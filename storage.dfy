/**
  The key-value store (AsyncStorage) under the key 'chimes', holding the last
  chime list written.  JSON encoding is the identity on these records, so the
  stored value is the list itself.
 */
module Storage {
  import opened Wrappers
  import opened Chimes

  /** `failing` stands for a device whose storage throws on every read and write. */
  class Store {
    var saved: Option<seq<Chime>>
    var writes: seq<seq<Chime>>
    var failing: bool

    constructor (saved: Option<seq<Chime>>, failing: bool)
      ensures this.saved == saved && this.failing == failing && writes == []
    {
      this.saved := saved;
      this.failing := failing;
      writes := [];
    }

    /** `savechimesToStorage`: a failed write is caught and logged, so it changes nothing. */
    method Save(cs: seq<Chime>)
      modifies this
      ensures writes == old(writes) + [cs] && failing == old(failing)
      ensures saved == if failing then old(saved) else Some(cs)
    {
      writes := writes + [cs];
      if !failing {
        saved := Some(cs);
      }
    }

    /** `loadchimesFromStorage`: a failed read is caught and reads as null. */
    method Load() returns (r: Option<seq<Chime>>)
      ensures r.Some? <==> !failing && saved.Some?
      ensures r.Some? ==> r == saved
    {
      if failing {
        r := None;
      } else {
        r := saved;
      }
    }
  }
}
