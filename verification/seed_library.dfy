/**
 * The library catalogue seed: a prefix search that answers `null` instead of
 * an empty list, and a positional lookup on a linked list. The catalogue is
 * passed in instead of living in a static field; its titles are not `null`.
 */
module LibraryCatalog {
  import opened Wrappers
  import opened Text

  /** The titles starting with `prefix`, in catalogue order. */
  function Matching(catalog: seq<string>, prefix: string): (r: seq<string>)
    ensures |r| <= |catalog|
    ensures forall k :: 0 <= k < |r| ==> StartsWith(r[k], prefix)
    ensures |r| == 0 <==> forall k :: 0 <= k < |catalog| ==> !StartsWith(catalog[k], prefix)
  {
    if |catalog| == 0 then []
    else
      var title := catalog[|catalog| - 1];
      Matching(catalog[..|catalog| - 1], prefix) + (if StartsWith(title, prefix) then [title] else [])
  }

  /** A title is found exactly when it is in the catalogue and starts with the prefix. */
  lemma {:induction false} MatchingMembers(catalog: seq<string>, prefix: string, title: string)
    ensures title in Matching(catalog, prefix) <==> title in catalog && StartsWith(title, prefix)
  {
    if |catalog| > 0 {
      var init := catalog[..|catalog| - 1];
      MatchingMembers(init, prefix, title);
      assert catalog == init + [catalog[|catalog| - 1]];
    }
  }

  /**
   * `searchByPrefix`: the matching titles in catalogue order, or `None` (Java
   * `null`) when there are none; it never answers an empty list.
   */
  method SearchByPrefix(catalog: seq<string>, prefix: string) returns (r: Option<seq<string>>)
    ensures r.None? <==> forall k :: 0 <= k < |catalog| ==> !StartsWith(catalog[k], prefix)
    ensures r.Some? ==> r.value == Matching(catalog, prefix) && |r.value| > 0
  {
    var results := [];
    for i := 0 to |catalog|
      invariant results == Matching(catalog[..i], prefix)
    {
      var title := catalog[i];
      assert catalog[..i + 1][..i] == catalog[..i];
      if StartsWith(title, prefix) {
        results := results + [title];
      }
    }
    assert catalog[..|catalog|] == catalog;
    r := if |results| == 0 then None else Some(results);
  }

  /** The message of the `IndexOutOfBoundsException` a linked list throws. */
  function OutOfBounds(index: int, size: nat): string {
    "Index: " + IntToDecimal(index) + ", Size: " + IntToDecimal(size)
  }

  /** `getByIndex`: the title at `index`, or the out-of-bounds failure. */
  function GetByIndex(catalog: seq<string>, index: int): (r: Result<string>)
    ensures r.Ok? <==> 0 <= index < |catalog|
    ensures r.Ok? ==> r.value == catalog[index]
    ensures r.Err? ==> r.message == OutOfBounds(index, |catalog|)
  {
    if 0 <= index < |catalog| then Ok(catalog[index])
    else Err(OutOfBounds(index, |catalog|))
  }

  /** Every title the search reports can be fetched by its position in the catalogue. */
  lemma FoundTitlesAreIndexed(catalog: seq<string>, prefix: string, title: string)
    requires title in Matching(catalog, prefix)
    ensures exists i :: 0 <= i < |catalog| && GetByIndex(catalog, i) == Ok(title)
  {
    MatchingMembers(catalog, prefix, title);
    var i :| 0 <= i < |catalog| && catalog[i] == title;
    assert GetByIndex(catalog, i) == Ok(title);
  }
}
