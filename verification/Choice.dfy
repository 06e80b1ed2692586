/** Elements of a set in an order that does not matter to the caller, such as the rows of a result set. */
module Choice {
  method Pick<T(==)>(items: set<T>) returns (item: T)
    requires items != {}
    ensures item in items
  {
    item :| item in items;
  }

  ghost function AnyOf<T>(items: set<T>): (item: T)
    requires items != {}
    ensures item in items
  {
    var item :| item in items;
    item
  }

  /** The elements in some order, each of them once. */
  lemma {:induction false} Listing<T>(items: set<T>) returns (order: seq<T>)
    ensures forall item :: item in order <==> item in items
    ensures forall i, j :: 0 <= i < j < |order| ==> order[i] != order[j]
    decreases items
  {
    order := [];
    if items != {} {
      var item := AnyOf(items);
      var rest := Listing(items - {item});
      order := [item] + rest;
      assert forall i :: 0 <= i < |rest| ==> rest[i] in rest;
    }
  }
}
