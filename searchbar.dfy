/** The search bar: each keystroke lower-cases the input, stores it as the search term, and
    keeps the items of the fixed fruit list whose lower-cased form contains it. */
module SearchBar {
  import Seqs

  /** `data`. */
  function Data(): seq<string> {
    ["Apple", "Banana", "Cherry", "Date", "Fig", "Grape", "Mango"]
  }

  /** `toLowerCase` on one character, for the ASCII letters. */
  function LowerChar(c: char): char {
    if 'A' <= c <= 'Z' then c - 'A' + 'a' else c
  }

  /** `s.toLowerCase()`. */
  function Lower(s: string): (r: string)
    ensures |r| == |s|
    ensures forall i :: 0 <= i < |s| ==> r[i] == LowerChar(s[i])
  {
    seq(|s|, i requires 0 <= i < |s| => LowerChar(s[i]))
  }

  /** `t` occurs in `s` starting at position `i`. */
  predicate OccursAt(s: string, t: string, i: int) {
    0 <= i && i + |t| <= |s| && s[i..i + |t|] == t
  }

  /** `s.includes(t)`: `t` occurs in `s` at some position. */
  predicate Contains(s: string, t: string) {
    exists i :: 0 <= i <= |s| - |t| && OccursAt(s, t, i)
  }

  /** The search bar's state: `searchTerm` and `filteredData`. */
  datatype SearchState = SearchState(searchTerm: string, filteredData: seq<string>)

  /** `useState("")` and `useState(data)`. */
  function Initial(): SearchState {
    SearchState("", Data())
  }

  /** The test `item.toLowerCase().includes(value)`. */
  function Matches(value: string): string -> bool {
    (item: string) => Contains(Lower(item), value)
  }

  /** The items of `data` that `handleSearch` keeps for the input text `input`. */
  function Search(data: seq<string>, input: string): seq<string> {
    Seqs.Filter(data, Matches(Lower(input)))
  }

  /** `handleSearch(e)` with `input == e.target.value`. */
  function HandleSearch(input: string): SearchState {
    SearchState(Lower(input), Search(Data(), input))
  }

  /** Lower-casing twice is lower-casing once. */
  lemma LowerIdempotent(s: string)
    ensures Lower(Lower(s)) == Lower(s)
  {
  }

  /** Lower-casing keeps a substring a substring. */
  lemma LowerKeepsContains(s: string, t: string)
    requires Contains(s, t)
    ensures Contains(Lower(s), Lower(t))
  {
    var i :| 0 <= i <= |s| - |t| && OccursAt(s, t, i);
    assert Lower(s)[i..i + |t|] == Lower(t);
    assert OccursAt(Lower(s), Lower(t), i);
  }

  /** A substring of a substring is a substring. */
  lemma ContainsTransitive(s: string, t: string, u: string)
    requires Contains(s, t) && Contains(t, u)
    ensures Contains(s, u)
  {
    var i :| 0 <= i <= |s| - |t| && OccursAt(s, t, i);
    var j :| 0 <= j <= |t| - |u| && OccursAt(t, u, j);
    forall k | 0 <= k < |u| ensures s[i + j + k] == u[k] {
      assert s[i..i + |t|][j + k] == t[j..j + |u|][k];
    }
    assert s[i + j..i + j + |u|] == u;
    assert OccursAt(s, u, i + j);
  }

  /** The result lists items of `data` in their order. */
  lemma SearchIsSubsequence(data: seq<string>, input: string)
    ensures Seqs.IsSubsequence(Search(data, input), data)
  {
    Seqs.FilterIsSubsequence(data, Matches(Lower(input)));
  }

  /** An item is listed exactly when it is in `data` and its lower-case form contains the
      lower-cased input. */
  lemma SearchKeepsMatches(data: seq<string>, input: string, item: string)
    ensures item in Search(data, input) <==> item in data && Contains(Lower(item), Lower(input))
  {
    Seqs.FilterMember(data, Matches(Lower(input)), item);
  }

  /** The empty input keeps every item, so the initial list is what clearing the input shows. */
  lemma EmptyInputKeepsAll(data: seq<string>)
    ensures Search(data, "") == data
    ensures HandleSearch("") == Initial()
  {
    var m := Matches(Lower(""));
    forall i | 0 <= i < |data| ensures m(data[i]) {
      assert OccursAt(Lower(data[i]), Lower(""), 0);
    }
    Seqs.FilterKeepsAll(data, m);
    assert Search(Data(), "") == Data() by {
      forall i | 0 <= i < |Data()| ensures m(Data()[i]) {
        assert OccursAt(Lower(Data()[i]), Lower(""), 0);
      }
      Seqs.FilterKeepsAll(Data(), m);
    }
  }

  /** Inputs that differ only in the case of ASCII letters give the same state; in particular
      typing the lower-cased input gives the same state. */
  lemma CaseInsensitive(a: string, b: string)
    requires Lower(a) == Lower(b)
    ensures HandleSearch(a) == HandleSearch(b)
    ensures HandleSearch(Lower(a)) == HandleSearch(a)
  {
    assert Lower(Lower(a)) == Lower(a);
  }

  /** Refining the input narrows the result: when the longer input contains the shorter, every
      item listed for the longer input is listed for the shorter, in the same order. */
  lemma LongerInputNarrows(data: seq<string>, shorter: string, longer: string)
    requires Contains(longer, shorter)
    ensures Seqs.IsSubsequence(Search(data, longer), Search(data, shorter))
  {
    LowerKeepsContains(longer, shorter);
    var p := Matches(Lower(longer));
    var q := Matches(Lower(shorter));
    forall item | p(item) ensures q(item) {
      ContainsTransitive(Lower(item), Lower(longer), Lower(shorter));
    }
    Seqs.FilterMonotone(data, p, q);
  }

  /** The stored term is the lower-cased input: as long as the input, and with no upper-case
      ASCII letter left. */
  lemma StoredTermIsLowerCase(input: string)
    ensures |HandleSearch(input).searchTerm| == |input|
    ensures forall i :: 0 <= i < |input| ==> !('A' <= HandleSearch(input).searchTerm[i] <= 'Z')
    ensures forall i :: 0 <= i < |input| && !('A' <= input[i] <= 'Z') ==> HandleSearch(input).searchTerm[i] == input[i]
    ensures forall i :: 0 <= i < |input| && 'A' <= input[i] <= 'Z' ==>
              HandleSearch(input).searchTerm[i] == input[i] - 'A' + 'a'
  {
  }
}
