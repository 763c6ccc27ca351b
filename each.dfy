/**
 * `Each({render, of})`: `null` when `of` is not an array, otherwise the items
 * rendered in order, `render(item, index)` for each.
 */
module Each {
  import opened Optional

  /** The `of` prop: an array of items, or any other value. */
  datatype Items<T> = Array(items: seq<T>) | NotArray

  /** `of.map((item, index) => render(item, index))` from `start` on, as `map` walks the array. */
  function MapIndexed<T, E>(items: seq<T>, start: nat, render: (T, nat) -> E): (r: seq<E>)
    ensures |r| == |items|
    ensures forall i :: 0 <= i < |items| ==> r[i] == render(items[i], start + i)
    decreases |items|
  {
    if items == [] then []
    else [render(items[0], start)] + MapIndexed(items[1..], start + 1, render)
  }

  /** The component's output. */
  function Each<T, E>(render: (T, nat) -> E, of: Items<T>): (r: Option<seq<E>>)
    ensures of.NotArray? ==> r.None?
    ensures of.Array? ==> r.Some? && |r.value| == |of.items|
    ensures of.Array? ==> forall i :: 0 <= i < |of.items| ==> r.value[i] == render(of.items[i], i)
  {
    match of
    case NotArray => None
    case Array(items) => Some(MapIndexed(items, 0, render))
  }

  /** An empty array yields an empty result, not `null`. */
  lemma EmptyArrayIsEmpty<T, E>(render: (T, nat) -> E)
    ensures Each(render, Array([])) == Some([])
  {
  }

  /** A render that records the call it receives. */
  function CallOf<T>(item: T, index: nat): (T, nat) { (item, index) }

  /** A render that returns its item unchanged. */
  function ItemOf<T>(item: T, index: nat): T { item }

  /**
   * Item i of the output is rendered from `(items[i], i)`, in index order:
   * with a render that returns its arguments, the output is exactly the
   * sequence of `(item, index)` pairs.
   */
  lemma RenderCallsInOrder<T>(items: seq<T>)
    ensures Each(CallOf<T>, Array(items)) ==
            Some(seq(|items|, i requires 0 <= i < |items| => (items[i], i)))
  {
    var r := Each(CallOf<T>, Array(items)).value;
    var calls := seq(|items|, i requires 0 <= i < |items| => (items[i], i));
    assert |r| == |calls|;
    forall i | 0 <= i < |items| ensures r[i] == calls[i] {
      assert r[i] == CallOf(items[i], i);
    }
    assert r == calls;
  }

  /** With an identity render, the output is the input, in the same order. */
  lemma IdentityRenderKeepsItems<T>(items: seq<T>)
    ensures Each(ItemOf<T>, Array(items)) == Some(items)
  {
    var r := Each(ItemOf<T>, Array(items)).value;
    assert |r| == |items|;
    forall i | 0 <= i < |items| ensures r[i] == items[i] {
      assert r[i] == ItemOf(items[i], i);
    }
    assert r == items;
  }
}
