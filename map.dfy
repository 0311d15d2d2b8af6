/** `Array.prototype.myMap(cb)`: a loop over the indices of `this` that pushes
    `cb(this[i], i, this)` onto a new array and returns it. */
module MapPolyfill {
  import opened Js
  import opened JsArrays

  /** The callback: element, index and the array being mapped, to the new element. */
  type Callback = (Value, nat, seq<Value>) -> Value

  /** `self.myMap(cb)`. The ghost `visits` lists the indices `cb` was called with, in call
      order. */
  method MyMap(self: JsArray<Value>, cb: Callback) returns (temp: JsArray<Value>, ghost visits: seq<nat>)
    ensures fresh(temp)
    ensures |temp.elems| == |self.elems|
    ensures forall i :: 0 <= i < |self.elems| ==> temp.elems[i] == cb(self.elems[i], i, self.elems)
    ensures |visits| == |self.elems| && forall i :: 0 <= i < |visits| ==> visits[i] == i
  {
    temp := new JsArray([]);
    visits := [];
    var i := 0;
    while i < |self.elems|
      invariant 0 <= i <= |self.elems|
      invariant fresh(temp)
      invariant |temp.elems| == i
      invariant forall j :: 0 <= j < i ==> temp.elems[j] == cb(self.elems[j], j, self.elems)
      invariant |visits| == i && forall j :: 0 <= j < i ==> visits[j] == j
    {
      temp.Push(cb(self.elems[i], i, self.elems));
      visits := visits + [i];
      i := i + 1;
    }
  }
}
