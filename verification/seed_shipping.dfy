/**
 * The shipping logistics seed: an untyped container holding a cargo object and
 * a tracking id, a global registry that containers are appended to, a weight
 * of ten per container and a collector of tracking ids. The registry is passed
 * in and returned instead of living in a static field.
 */
module ShippingRegistry {
  import opened Wrappers

  /** `cargo` is any object; both fields may be Java `null` (`None`). */
  datatype ShippingContainer<C> = ShippingContainer(cargo: Option<C>, trackingId: Option<string>)

  const WeightPerContainer: int := 10

  /** The getters return what the constructor was given. */
  lemma GettersReturnArguments<C>(cargo: Option<C>, trackingId: Option<string>)
    ensures ShippingContainer(cargo, trackingId).cargo == cargo
    ensures ShippingContainer(cargo, trackingId).trackingId == trackingId
  {
  }

  /** `registerShipment`: appends the container and leaves earlier entries alone. */
  function RegisterShipment<C>(shipments: seq<ShippingContainer<C>>, container: ShippingContainer<C>)
    : (r: seq<ShippingContainer<C>>)
    ensures |r| == |shipments| + 1
    ensures r[..|shipments|] == shipments
    ensures r[|shipments|] == container
  {
    shipments + [container]
  }

  /** `calculateTotalWeight`: ten for each container. */
  method CalculateTotalWeight<C>(containers: seq<ShippingContainer<C>>) returns (total: int)
    ensures total == WeightPerContainer * |containers|
  {
    total := 0;
    for i := 0 to |containers|
      invariant total == WeightPerContainer * i
    {
      total := total + 10;
    }
  }

  /** The tracking ids of `source`, in order. */
  function TrackingIds<C>(source: seq<ShippingContainer<C>>): (r: seq<Option<string>>)
    ensures |r| == |source|
    ensures forall k :: 0 <= k < |r| ==> r[k] == source[k].trackingId
  {
    if |source| == 0 then [] else TrackingIds(source[..|source| - 1]) + [source[|source| - 1].trackingId]
  }

  /**
   * `collectTrackingIds`: appends the tracking id of every source container,
   * in order, after what the destination already holds.
   */
  method CollectTrackingIds<C>(source: seq<ShippingContainer<C>>, destination: seq<Option<string>>)
    returns (r: seq<Option<string>>)
    ensures r == destination + TrackingIds(source)
    ensures |r| == |destination| + |source|
    ensures r[..|destination|] == destination
    ensures forall k :: 0 <= k < |source| ==> r[|destination| + k] == source[k].trackingId
  {
    r := destination;
    for i := 0 to |source|
      invariant r == destination + TrackingIds(source[..i])
    {
      assert source[..i + 1][..i] == source[..i];
      r := r + [source[i].trackingId];
    }
    assert source[..|source|] == source;
  }

  /** Collecting from two lists in turn is collecting from their concatenation. */
  lemma {:induction false} TrackingIdsAppend<C>(a: seq<ShippingContainer<C>>, b: seq<ShippingContainer<C>>)
    ensures TrackingIds(a + b) == TrackingIds(a) + TrackingIds(b)
  {
    var l, r := TrackingIds(a + b), TrackingIds(a) + TrackingIds(b);
    assert |l| == |r|;
    forall k | 0 <= k < |l| ensures l[k] == r[k] {
      if k < |a| {
        assert (a + b)[k] == a[k];
      } else {
        assert (a + b)[k] == b[k - |a|];
      }
    }
  }
}
