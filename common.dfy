/** Shared vocabulary of the checkpointer model: payload bytes, an optional
    value, and sortedness of an id list. */
module Common {

  /** A serialized checkpoint payload (Python `bytes`). */
  type Bytes = seq<bv8>

  /** The conventional optional value; `None` stands for Python's `None`. */
  datatype Option<T> = None | Some(value: T)

  /** Non-decreasing order, which is what `bisect.insort` maintains
      (equal ids may repeat). */
  ghost predicate Sorted(s: seq<int>) {
    forall i, j :: 0 <= i < j < |s| ==> s[i] <= s[j]
  }

  /** The set of elements of a sequence. */
  ghost function Elems(s: seq<int>): set<int> {
    set x | x in s
  }
}
