/** Integer arrays that end at their first zero, the form in which paths are handed back. */
module ZeroArrays {

  /** The entries before the first zero. */
  function Stored(a: seq<int>): seq<int> {
    if a == [] || a[0] == 0 then [] else [a[0]] + Stored(a[1..])
  }

  lemma {:induction false} StoredIs(a: seq<int>, p: seq<int>)
    requires |p| < |a| && a[..|p|] == p && a[|p|] == 0
    requires forall i :: 0 <= i < |p| ==> p[i] != 0
    ensures Stored(a) == p
  {
    if p != [] {
      assert a[0] == a[..|p|][0] == p[0];
      assert a[1..][..|p| - 1] == p[1..];
      StoredIs(a[1..], p[1..]);
    }
  }

  method Length(arr: array<int>) returns (count: nat)
    requires exists i :: 0 <= i < arr.Length && arr[i] == 0
    ensures count < arr.Length && arr[count] == 0
    ensures forall i :: 0 <= i < count ==> arr[i] != 0
    ensures Stored(arr[..]) == arr[..count]
  {
    count := 0;
    while arr[count] != 0
      invariant count < arr.Length
      invariant forall i :: 0 <= i < count ==> arr[i] != 0
      decreases arr.Length - count
    {
      count := count + 1;
    }
    StoredIs(arr[..], arr[..count]);
  }

  method FoundInArray(arr: array<int>, n: int) returns (found: bool)
    requires exists i :: 0 <= i < arr.Length && arr[i] == 0
    ensures found == (n in Stored(arr[..]))
  {
    var length := Length(arr);
    for i := 0 to length
      invariant n !in arr[..i]
    {
      if arr[i] == n {
        assert arr[..length][i] == n;
        return true;
      }
      assert arr[..i + 1] == arr[..i] + [arr[i]];
    }
    return false;
  }
}
