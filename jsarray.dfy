/** A JavaScript array object: a growable list that methods such as `push` and `splice` change
    in place. Two variables holding the same array see each other's changes; a copy made by
    spreading (`[...a]`) is a new object. */
module JsArrays {

  /** The index `splice` starts at: a negative start counts from the end, and the result is
      clamped into `[0, len]`. */
  function SpliceStart(len: nat, start: int): (k: nat)
    ensures k <= len
    ensures 0 <= start <= len ==> k == start
    ensures start < 0 && len + start >= 0 ==> k == len + start
    ensures start > len ==> k == len
    ensures len + start < 0 ==> k == 0
  {
    if start < 0 then (if len + start < 0 then 0 else len + start)
    else if start > len then len
    else start
  }

  /** How many elements `splice` removes: `deleteCount` clamped into `[0, len - start]`. */
  function SpliceCount(len: nat, start: nat, deleteCount: int): (n: nat)
    requires start <= len
    ensures start + n <= len
    ensures 0 <= deleteCount <= len - start ==> n == deleteCount
    ensures deleteCount < 0 ==> n == 0
    ensures deleteCount > len - start ==> n == len - start
  {
    if deleteCount < 0 then 0
    else if deleteCount > len - start then len - start
    else deleteCount
  }

  /** The contents an array holds after `a.splice(start, deleteCount, ...items)`. */
  function Spliced<T>(s: seq<T>, start: int, deleteCount: int, items: seq<T>): (r: seq<T>)
    ensures var k := SpliceStart(|s|, start);
            var n := SpliceCount(|s|, k, deleteCount);
            && |r| == |s| - n + |items|
            && r[..k] == s[..k]
            && r[k..k + |items|] == items
            && r[k + |items|..] == s[k + n..]
  {
    var k := SpliceStart(|s|, start);
    var n := SpliceCount(|s|, k, deleteCount);
    var r := s[..k] + items + s[k + n..];
    assert r[..k] == s[..k];
    assert r[k..k + |items|] == items;
    assert r[k + |items|..] == s[k + n..];
    r
  }

  /** Inserting `items` at an in-range position with `splice(k, 0, ...items)` and then deleting
      them again with `splice(k, items.length)` restores the contents. */
  lemma InsertThenDeleteRestores<T>(s: seq<T>, k: nat, items: seq<T>)
    requires k <= |s|
    ensures Spliced(Spliced(s, k, 0, items), k, |items|, []) == s
  {
    var t := Spliced(s, k, 0, items);
    assert t == s[..k] + items + s[k..];
    assert Spliced(t, k, |items|, []) == t[..k] + t[k + |items|..];
    assert s == s[..k] + s[k..];
  }

  class JsArray<T> {
    var elems: seq<T>

    /** `[...s]`: a new array holding the given elements. */
    constructor (s: seq<T>)
      ensures elems == s
    {
      elems := s;
    }

    /** `a.push(x)`. */
    method Push(x: T)
      modifies this
      ensures elems == old(elems) + [x]
    {
      elems := elems + [x];
    }

    /** `a.splice(start, deleteCount, ...items)`: changes the array in place and returns the
        removed elements. */
    method Splice(start: int, deleteCount: int, items: seq<T>) returns (removed: seq<T>)
      modifies this
      ensures elems == Spliced(old(elems), start, deleteCount, items)
      ensures var k := SpliceStart(|old(elems)|, start);
              removed == old(elems)[k..k + SpliceCount(|old(elems)|, k, deleteCount)]
    {
      var k := SpliceStart(|elems|, start);
      var n := SpliceCount(|elems|, k, deleteCount);
      removed := elems[k..k + n];
      elems := Spliced(elems, start, deleteCount, items);
    }
  }
}
