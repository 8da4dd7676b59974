/** LocalRecordCache: a single slot holding the last full record map a
    dataset read or wrote. Presence means "not null", so a cached empty
    map is still cached data. */
module RecordCache {
  import opened Wrappers

  class LocalRecordCache<D> {
    /** The slot; `None` is the C# null. */
    var cache: Option<D>

    /** A fresh cache holds nothing. */
    constructor ()
      ensures cache == None
      ensures !HasCachedData()
    {
      cache := None;
    }

    /** True exactly when the slot is non-null, whatever the value is. */
    function HasCachedData(): (has: bool)
      reads this
      ensures has <==> cache.Some?
    {
      cache != None
    }

    /** The slot's content; null exactly when there is no cached data. */
    function GetCachedData(): (data: Option<D>)
      reads this
      ensures data.Some? <==> HasCachedData()
      ensures data.Some? ==> cache == Some(data.value)
    {
      cache
    }

    /** Replaces the slot entirely; passing null empties it, as ClearCache does. */
    method UpdateCachedData(data: Option<D>)
      modifies this
      ensures cache == data
      ensures HasCachedData() <==> data.Some?
      ensures GetCachedData() == data
    {
      cache := data;
    }

    /** Back to the state of a fresh cache. */
    method ClearCache()
      modifies this
      ensures cache == None
      ensures !HasCachedData()
    {
      cache := None;
    }
  }
}
