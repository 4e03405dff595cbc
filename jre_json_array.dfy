/**
 * `JreJsonArray`: the server-side JSON array, a growable list of JSON values. A Java null
 * stored into it becomes JSON null. Index errors are those of `java.util.ArrayList`.
 */
module JreJsonArrays {
  import opened Wrappers
  import opened Json

  /** `value == null ? factory.createNull() : value`. */
  function OrNull(value: Option<Json>): (j: Json)
    ensures value.None? ==> j == JNull
    ensures value.Some? ==> j == value.value
  {
    if value.None? then JNull else value.value
  }

  /** `ArrayList.add(index, v)`: `v` at `index`, the elements from there on one place further. */
  function InsertAt<T>(s: seq<T>, index: int, v: T): (r: seq<T>)
    requires 0 <= index <= |s|
    ensures |r| == |s| + 1 && r[index] == v
    ensures forall j | 0 <= j < index :: r[j] == s[j]
    ensures forall j | index <= j < |s| :: r[j + 1] == s[j]
  {
    s[..index] + [v] + s[index..]
  }

  /** `ArrayList.remove(index)`: the element at `index` gone, the later ones one place back. */
  function RemoveAt<T>(s: seq<T>, index: int): (r: seq<T>)
    requires 0 <= index < |s|
    ensures |r| == |s| - 1
    ensures forall j | 0 <= j < index :: r[j] == s[j]
    ensures forall j | index <= j < |r| :: r[j] == s[j + 1]
  {
    s[..index] + s[index + 1..]
  }

  /** Removing what was just inserted gives back the array. */
  lemma RemoveUndoesInsert<T>(s: seq<T>, index: int, v: T)
    requires 0 <= index <= |s|
    ensures RemoveAt(InsertAt(s, index, v), index) == s
  {
    var r := RemoveAt(InsertAt(s, index, v), index);
    assert |r| == |s|;
    forall j | 0 <= j < |s|
      ensures r[j] == s[j]
    {
    }
  }

  /** Inserting back what was just removed gives back the array. */
  lemma InsertUndoesRemove<T>(s: seq<T>, index: int)
    requires 0 <= index < |s|
    ensures InsertAt(RemoveAt(s, index), index, s[index]) == s
  {
    var r := InsertAt(RemoveAt(s, index), index, s[index]);
    assert |r| == |s|;
    forall j | 0 <= j < |s|
      ensures r[j] == s[j]
    {
    }
  }

  /** The element strings joined with `", "`, as `asString` builds them. */
  function Joined(strs: seq<string>): string
  {
    if |strs| == 0 then ""
    else if |strs| == 1 then strs[0]
    else Joined(strs[..|strs| - 1]) + ", " + strs[|strs| - 1]
  }

  /** Joining from the front: the first string, then a separator and the rest joined. */
  lemma {:induction false} JoinedFromFront(strs: seq<string>)
    requires |strs| >= 2
    ensures Joined(strs) == strs[0] + ", " + Joined(strs[1..])
    decreases |strs|
  {
    if |strs| > 2 {
      JoinedFromFront(strs[..|strs| - 1]);
      assert strs[..|strs| - 1][1..] == strs[1..][..|strs[1..]| - 1];
      assert strs[..|strs| - 1][0] == strs[0];
      assert strs[1..][|strs[1..]| - 1] == strs[|strs| - 1];
    } else {
      assert strs[1..] == [strs[1]];
      assert strs[..1] == [strs[0]];
    }
  }

  /** `JreJsonArray`. */
  class JreJsonArray {
    var arrayValues: seq<Json>

    constructor ()
      ensures arrayValues == []
    {
      arrayValues := [];
    }

    /** `length`. */
    function Length(): (n: int)
      reads this
      ensures n == |arrayValues| && n >= 0
    {
      |arrayValues|
    }

    /** `get`: the element at the index, or an index error. */
    function Get(index: int): (r: Result<Json>)
      reads this
      ensures r.Ok? <==> 0 <= index < |arrayValues|
      ensures r.Ok? ==> r.value == arrayValues[index]
      ensures r.Err? ==> r.error == IndexOutOfBounds
    {
      if 0 <= index < |arrayValues| then Ok(arrayValues[index]) else Err(IndexOutOfBounds)
    }

    /** `insert`: a null becomes JSON null; the index may be the length, to append. */
    method Insert(index: int, value: Option<Json>) returns (r: Outcome)
      modifies this
      ensures !(0 <= index <= old(|arrayValues|)) ==> r == Fail(IndexOutOfBounds) && arrayValues == old(arrayValues)
      ensures 0 <= index <= old(|arrayValues|) ==> r == Pass && arrayValues == InsertAt(old(arrayValues), index, OrNull(value))
    {
      if !(0 <= index <= |arrayValues|) {
        return Fail(IndexOutOfBounds);
      }
      arrayValues := InsertAt(arrayValues, index, OrNull(value));
      return Pass;
    }

    /** `set`: at the length it appends; elsewhere it overwrites in place, within the bounds. */
    method Set(index: int, value: Option<Json>) returns (r: Outcome)
      modifies this
      ensures index == old(|arrayValues|) ==> r == Pass && arrayValues == old(arrayValues) + [OrNull(value)]
      ensures 0 <= index < old(|arrayValues|) ==> r == Pass && arrayValues == old(arrayValues)[index := OrNull(value)]
      ensures !(0 <= index <= old(|arrayValues|)) ==> r == Fail(IndexOutOfBounds) && arrayValues == old(arrayValues)
    {
      var v := OrNull(value);
      if index == |arrayValues| {
        arrayValues := InsertAt(arrayValues, index, v);
        assert arrayValues == old(arrayValues) + [v];
        return Pass;
      }
      if !(0 <= index < |arrayValues|) {
        return Fail(IndexOutOfBounds);
      }
      arrayValues := arrayValues[index := v];
      return Pass;
    }

    /** `remove`: one element out, within the bounds. */
    method Remove(index: int) returns (r: Outcome)
      modifies this
      ensures !(0 <= index < old(|arrayValues|)) ==> r == Fail(IndexOutOfBounds) && arrayValues == old(arrayValues)
      ensures 0 <= index < old(|arrayValues|) ==> r == Pass && arrayValues == RemoveAt(old(arrayValues), index)
    {
      if !(0 <= index < |arrayValues|) {
        return Fail(IndexOutOfBounds);
      }
      arrayValues := RemoveAt(arrayValues, index);
      return Pass;
    }

    /**
     * `asString`: the elements' own strings joined with `", "`. How a single element renders
     * is `render`, the elements' `asString`.
     */
    method AsString(render: Json -> string) returns (s: string)
      ensures s == Joined(seq(|arrayValues|, i requires 0 <= i < |arrayValues| reads this => render(arrayValues[i])))
    {
      ghost var strs := seq(|arrayValues|, i requires 0 <= i < |arrayValues| reads this => render(arrayValues[i]));
      s := "";
      var i := 0;
      while i < |arrayValues|
        invariant 0 <= i <= |arrayValues|
        invariant s == Joined(strs[..i])
      {
        if i > 0 {
          s := s + ", ";
        }
        s := s + render(arrayValues[i]);
        assert strs[..i + 1][..i] == strs[..i];
        i := i + 1;
      }
      assert strs[..|arrayValues|] == strs;
    }
  }
}
