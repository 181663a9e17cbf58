/** Finding how many capability values the running kernel has, by asking for bounding values. */
module MaxBits {

  /** The C library's search: the kernel refuses a value exactly when it is `values` or more. No
      value at all, or more of them than the words hold, leaves the number known at build time. */
  method BinarySearch(values: nat, high: nat, fallback: nat) returns (val: nat)
    ensures val == if 0 < values <= high then values else fallback
  {
    var min: int, max: int := 0, high;
    while min <= max
      invariant 0 <= min <= max + 1 <= high + 1 && min <= values
      invariant max < high ==> values <= max + 1
    {
      var mid := (min + max) / 2;
      if values <= mid {
        max := mid - 1;
      } else {
        min := mid + 1;
      }
    }
    val := if min != 0 then if min <= high then min else fallback else fallback;
  }

  /** The Go package's search: more values than the words hold are cut to the words. */
  method Search(values: nat, words: nat, fallback: nat) returns (maxValues: nat)
    ensures maxValues ==
      if values == 0 || words == 0 then fallback else if values < 32 * words then values else 32 * words
  {
    var i, j := 0, 32 * words;
    while i < j
      invariant 0 <= i <= j <= 32 * words && i <= values
      invariant j < 32 * words ==> values <= j
    {
      var h := (i + j) / 2;
      if values <= h {
        j := h;
      } else {
        i := h + 1;
      }
    }
    maxValues := if i == 0 then fallback else i;
  }
}
