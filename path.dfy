/**
 * String-encoded addresses into a JSON document: `a.b[3]` is key `a`, then key `b`, then
 * index 3. The root is the empty string. A path value is immutable; every operation builds
 * a new string.
 */
module Paths {
  import opened Wrappers
  import opened Decimal

  const Root: string := ""

  // ---------------------------------------------------------------------------------------
  // java.lang.String searches used by the path code

  predicate StartsWith(s: string, prefix: string) {
    |prefix| <= |s| && s[..|prefix|] == prefix
  }

  predicate EndsWith(s: string, suffix: string) {
    |suffix| <= |s| && s[|s| - |suffix|..] == suffix
  }

  /** `s.indexOf(c, from)`: the first position at or after `from` holding `c`, or -1. */
  function IndexOf(s: string, c: char, from: nat): (r: int)
    ensures r == -1 ==> forall k | from <= k < |s| :: s[k] != c
    ensures r != -1 ==> from <= r < |s| && s[r] == c && forall k | from <= k < r :: s[k] != c
    decreases |s| - from
  {
    if from >= |s| then -1 else if s[from] == c then from else IndexOf(s, c, from + 1)
  }

  /** `s.lastIndexOf(c)`: the last position holding `c`, or -1. */
  function LastIndexOf(s: string, c: char): (r: int)
    ensures -1 <= r < |s|
    ensures r == -1 ==> forall k | 0 <= k < |s| :: s[k] != c
    ensures r != -1 ==> s[r] == c && forall k | r < k < |s| :: s[k] != c
  {
    if |s| == 0 then -1
    else if s[|s| - 1] == c then |s| - 1
    else LastIndexOf(s[..|s| - 1], c)
  }

  // ---------------------------------------------------------------------------------------
  // Building paths

  /** `checkKey`: a key step is non-empty and holds none of `.`, `[` and `]`. */
  predicate IsValidKey(key: string) {
    |key| > 0 && '.' !in key && '[' !in key && ']' !in key
  }

  /** `at(int)`: the element `index` of the array at `p`. */
  function AtIndex(p: string, index: int32): string {
    p + "[" + IntToString(index as int) + "]"
  }

  /** `at(String)`: the member `key` of the object at `p`; an invalid key fails `checkKey`. */
  function AtKey(p: string, key: string): (r: Result<string>)
    ensures r.Ok? <==> IsValidKey(key)
  {
    if !IsValidKey(key) then Err(AssertionFailed)
    else Ok((if p == "" then "" else p + ".") + key)
  }

  /** `at(Path)`: `sub` read relative to `p`. */
  function AtPath(p: string, sub: string): string {
    if sub == "" then p
    else if sub[0] == '[' then p + sub
    else (if p == "" then "" else p + ".") + sub
  }

  // ---------------------------------------------------------------------------------------
  // Taking paths apart

  /** `isIndexed`: the last step is an array index. */
  predicate IsIndexed(p: string) {
    EndsWith(p, "]")
  }

  /**
   * `getParent`: the path without its last step; none for the root. An indexed path with no
   * `[` cuts the text at -1, which throws.
   */
  function GetParent(p: string): (r: Result<Option<string>>)
    ensures r == Ok(None) <==> p == Root
    ensures r.Err? <==> IsIndexed(p) && '[' !in p
    ensures r.Err? ==> r.error == IndexOutOfBounds
    ensures r.Ok? && r.value.Some? ==> |r.value.value| < |p| && StartsWith(p, r.value.value)
  {
    if p == "" then Ok(None)
    else if IsIndexed(p) then
      var i := LastIndexOf(p, '[');
      if i == -1 then Err(IndexOutOfBounds) else Ok(Some(p[..i]))
    else
      var i := LastIndexOf(p, '.');
      if i == -1 then Ok(Some(Root)) else Ok(Some(p[..i]))
  }

  /** `getIndex`: the number inside the last `[...]`; the path must be indexed. */
  function GetIndex(p: string): (r: Result<int32>)
    ensures r.Ok? ==> IsIndexed(p)
  {
    if !IsIndexed(p) then Err(AssertionFailed)
    else
      var i := LastIndexOf(p, '[');
      ParseInt(p[i + 1..|p| - 1])
  }

  /** `getKey`: the text after the last `.`, or the whole path; the path must not be indexed. */
  function GetKey(p: string): (r: Result<string>)
    ensures r.Ok? ==> !IsIndexed(p) && EndsWith(p, r.value) && '.' !in r.value
  {
    if IsIndexed(p) then Err(AssertionFailed)
    else
      var i := LastIndexOf(p, '.');
      if i == -1 then Ok(p)
      else
        assert p[i + 1..] == p[|p| - |p[i + 1..]|..];
        Ok(p[i + 1..])
  }

  /**
   * `isAncestorOf`: `child` continues `p` across a `.` or `[` boundary. The relation is
   * strict, the root is an ancestor of every other path, and nothing is an ancestor of it.
   */
  predicate IsAncestorOf(p: string, child: string)
    ensures IsAncestorOf(p, child) ==> |p| < |child|
    ensures p == Root ==> (IsAncestorOf(p, child) <==> child != Root)
    ensures child == Root ==> !IsAncestorOf(p, child)
  {
    if child == "" then false
    else if p == "" then true
    else StartsWith(child, p + ".") || StartsWith(child, p + "[")
  }

  /**
   * `nextIndex(parent)`: for a path that continues `parent` with `[i]`, the index `i` and the
   * remaining steps, without the `.` that may follow `]`. None when the path does not
   * continue `parent` with `[`.
   */
  function NextIndex(p: string, parent: string): (r: Result<Option<(int32, string)>>)
    ensures r == Ok(None) <==>
      (p == "" || (parent == "" && p[0] != '[') || (parent != "" && !StartsWith(p, parent + "[")))
  {
    if p == "" || (parent == "" && p[0] != '[') || (parent != "" && !StartsWith(p, parent + "["))
    then Ok(None)
    else
      var cursor := |parent|;
      var close := IndexOf(p, ']', cursor);
      if close == -1 then Err(IndexOutOfBounds)
      else
        var index :- ParseInt(p[cursor + 1..close]);
        Ok(Some((index, RestAfterIndex(p, close))))
  }

  /** The steps after an index step closing at `close`, without the `.` that may separate them. */
  function RestAfterIndex(p: string, close: nat): string
    requires close < |p|
  {
    if |p| > close + 1 then p[close + (if p[close + 1] == '[' then 1 else 2)..] else ""
  }

  /**
   * `nextKey(parent)`: for a path that continues `parent` with `.key` (or starts with a key
   * when `parent` is the root), the key and the remaining steps. The key ends at the next
   * `.` or `[`.
   */
  function NextKey(p: string, parent: string): (r: Option<(string, string)>)
    ensures r.None? <==>
      (p == "" || (parent == "" && p[0] == '[') || (parent != "" && !StartsWith(p, parent + ".")))
  {
    if p == "" || (parent == "" && p[0] == '[') || (parent != "" && !StartsWith(p, parent + "."))
    then None
    else
      var cursor := KeyEnd(p, |parent| + 1);
      var start := if parent == "" then 0 else |parent| + 1;
      Some((p[start..cursor], RestAfterKey(p, cursor)))
  }

  /** Where a key step starting before `from` ends: at the first `.` or `[` from `from` on. */
  function KeyEnd(p: string, from: nat): (r: nat)
    ensures r <= |p| && (from <= |p| ==> from <= r)
  {
    var bracket := IndexOf(p, '[', from);
    var cursor := if bracket != -1 then bracket else |p|;
    var dot := IndexOf(p, '.', from);
    if dot != -1 && dot < cursor then dot else cursor
  }

  /** The steps after a key step ending at `cursor`, without the `.` that may separate them. */
  function RestAfterKey(p: string, cursor: nat): string
    requires cursor <= |p|
  {
    if cursor == |p| then "" else p[(if p[cursor] == '[' then cursor else cursor + 1)..]
  }

  // ---------------------------------------------------------------------------------------
  // Round trips between building and taking apart

  lemma NoBracketInNumber(i: int32)
    ensures '[' !in IntToString(i as int) && ']' !in IntToString(i as int)
    ensures '.' !in IntToString(i as int)
  {
    var s := IntToString(i as int);
    forall c | c in s ensures c != '[' && c != ']' && c != '.' {
      assert IsDigit(c) || c == '-';
    }
  }

  /** `getParent(p.at(i)) == p`. */
  lemma ParentOfAtIndex(p: string, i: int32)
    ensures GetParent(AtIndex(p, i)) == Ok(Some(p))
  {
    var q := AtIndex(p, i);
    var digits := IntToString(i as int);
    NoBracketInNumber(i);
    assert q[|q| - 1] == ']';
    assert IsIndexed(q);
    assert q[|p|] == '[';
    assert forall k | |p| < k < |q| :: q[k] != '[' by {
      forall k | |p| < k < |q| ensures q[k] != '[' {
        if k < |q| - 1 { assert q[k] == digits[k - |p| - 1]; }
      }
    }
    var l := LastIndexOf(q, '[');
    assert q[..|p|] == p;
  }

  /** `getParent(p.at(key)) == p` for a valid key. */
  lemma ParentOfAtKey(p: string, key: string)
    requires IsValidKey(key)
    ensures GetParent(AtKey(p, key).value) == Ok(Some(p))
  {
    var q := AtKey(p, key).value;
    assert key[|key| - 1] in key;
    assert q[|q| - 1] == key[|key| - 1];
    assert !IsIndexed(q);
    var base := |q| - |key|;
    assert q[base..] == key;
    assert forall k | base <= k < |q| :: q[k] != '.' by {
      forall k | base <= k < |q| ensures q[k] != '.' {
        assert q[k] == key[k - base];
      }
    }
    var l := LastIndexOf(q, '.');
    if p != "" {
      assert q[|p|] == '.';
      assert q[..|p|] == p;
    } else {
      assert q == key;
    }
  }

  /** `p.at(i).getIndex() == i`. */
  lemma IndexOfAtIndex(p: string, i: int32)
    ensures GetIndex(AtIndex(p, i)) == Ok(i)
  {
    var q := AtIndex(p, i);
    var digits := IntToString(i as int);
    NoBracketInNumber(i);
    assert q[|q| - 1] == ']';
    assert forall k | |p| < k < |q| :: q[k] != '[' by {
      forall k | |p| < k < |q| ensures q[k] != '[' {
        if k < |q| - 1 { assert q[k] == digits[k - |p| - 1]; }
      }
    }
    var l := LastIndexOf(q, '[');
    assert q[|p|] == '[';
    assert q[l + 1..|q| - 1] == digits;
    ParsePrintedInt(i);
  }

  /** `p.at(key).getKey() == key` for a valid key. */
  lemma KeyOfAtKey(p: string, key: string)
    requires IsValidKey(key)
    ensures GetKey(AtKey(p, key).value) == Ok(key)
  {
    var q := AtKey(p, key).value;
    assert key[|key| - 1] in key;
    assert q[|q| - 1] == key[|key| - 1];
    var base := |q| - |key|;
    assert q[base..] == key;
    assert forall k | base <= k < |q| :: q[k] != '.' by {
      forall k | base <= k < |q| ensures q[k] != '.' {
        assert q[k] == key[k - base];
      }
    }
    var l := LastIndexOf(q, '.');
    if p != "" {
      assert q[|p|] == '.';
    }
  }

  /** A path is the parent-side ancestor of each of its steps. */
  lemma AncestorOfSteps(p: string, i: int32, key: string)
    ensures IsAncestorOf(p, AtIndex(p, i))
    ensures IsValidKey(key) ==> IsAncestorOf(p, AtKey(p, key).value)
  {
    assert AtIndex(p, i)[..|p + "["|] == p + "[";
    if IsValidKey(key) && p != "" {
      assert AtKey(p, key).value[..|p + "."|] == p + ".";
    }
  }

  /** The first `c` from `from` on is at `r`. */
  lemma IndexOfAt(s: string, c: char, from: nat, r: nat)
    requires from <= r < |s| && s[r] == c
    requires forall k | from <= k < r :: s[k] != c
    ensures IndexOf(s, c, from) == r
  {
    var found := IndexOf(s, c, from);
    assert found != -1;
    assert !(found < r) && !(r < found);
  }

  /** How `parent[i]` followed by `sub` begins: the parent, `[`, the printed index, `]`. */
  lemma IndexPathLayout(parent: string, i: int32, sub: string, q: string, p: string)
    requires q == AtIndex(parent, i) && p == AtPath(q, sub)
    ensures |parent| + 2 <= |q| <= |p|
    ensures p[|parent|] == '[' && p[|q| - 1] == ']'
    ensures p[|parent| + 1..|q| - 1] == IntToString(i as int)
    ensures parent == "" ==> p[0] == '['
    ensures parent != "" ==> StartsWith(p, parent + "[")
  {
    var digits := IntToString(i as int);
    assert q == parent + "[" + digits + "]";
    assert p[..|q|] == q;
    assert p[|parent| + 1..|q| - 1] == q[|parent| + 1..|q| - 1] == digits;
    if parent != "" {
      assert p[..|parent| + 1] == q[..|parent| + 1] == parent + "[";
    }
  }

  /** A printed index between `[` at `open` and `]` at `close`: that `]` is the first one and the digits parse back. */
  lemma IndexPathNumber(p: string, open: nat, close: nat, i: int32)
    requires open < close < |p| && p[open] == '[' && p[close] == ']'
    requires p[open + 1..close] == IntToString(i as int)
    ensures IndexOf(p, ']', open) == close
    ensures ParseInt(p[open + 1..close]) == Ok(i)
  {
    var digits := IntToString(i as int);
    NoBracketInNumber(i);
    forall k | open <= k < close ensures p[k] != ']' {
      if k > open {
        assert p[k] == digits[k - open - 1];
      }
    }
    IndexOfAt(p, ']', open, close);
    ParsePrintedInt(i);
  }

  /** What follows the index step in `parent[i]` followed by `sub` is `sub`. */
  lemma IndexPathTail(parent: string, i: int32, sub: string, q: string, p: string)
    requires q == AtIndex(parent, i) && p == AtPath(q, sub)
    ensures 0 < |q| <= |p|
    ensures RestAfterIndex(p, |q| - 1) == sub
  {
    if sub != "" {
      if sub[0] == '[' {
        assert p[|q|..] == sub;
      } else {
        assert p[|q| + 1..] == sub;
      }
    }
  }

  /**
   * `nextIndex` splits off exactly the index step that `at(i)` added: walking from `parent`
   * into `parent[i]` followed by `sub` yields `(i, sub)`.
   */
  lemma NextIndexOfAt(parent: string, i: int32, sub: string)
    ensures NextIndex(AtPath(AtIndex(parent, i), sub), parent) == Ok(Some((i, sub)))
  {
    var q := AtIndex(parent, i);
    var p := AtPath(q, sub);
    IndexPathLayout(parent, i, sub, q, p);
    IndexPathNumber(p, |parent|, |q| - 1, i);
    IndexPathTail(parent, i, sub, q, p);
  }

  /** A key step that runs from `from` to `e` and stops at a separator or the end ends at `e`. */
  lemma KeyEndAt(p: string, from: nat, e: nat)
    requires from <= e <= |p|
    requires forall k | from <= k < e :: p[k] != '.' && p[k] != '['
    requires e == |p| || p[e] == '.' || p[e] == '['
    ensures KeyEnd(p, from) == e
  {
    var bracket := IndexOf(p, '[', from);
    var dot := IndexOf(p, '.', from);
    assert bracket == -1 || bracket >= e;
    assert dot == -1 || dot >= e;
  }

  /** How `parent.key` followed by `sub` is laid out: the key step, then a separator or nothing. */
  lemma KeyPathLayout(parent: string, key: string, sub: string, pre: string, q: string, p: string)
    requires IsValidKey(key)
    requires pre == (if parent == "" then "" else parent + ".")
    requires q == AtKey(parent, key).value && p == AtPath(q, sub)
    ensures |q| == |pre| + |key| <= |p| && p[|pre|..|q|] == key
    ensures forall k | |pre| <= k < |q| :: p[k] != '.' && p[k] != '['
    ensures parent == "" ==> p[0] == key[0]
    ensures parent != "" ==> StartsWith(p, parent + ".")
  {
    assert q == pre + key;
    assert p[..|q|] == q;
    forall k | |pre| <= k < |q| ensures p[k] != '.' && p[k] != '[' {
      assert p[k] == key[k - |pre|];
    }
    assert key[0] in key;
    if parent != "" {
      assert p[..|pre|] == pre;
    }
  }

  /** What follows the key step in `parent.key` followed by `sub`: a separator or nothing, then `sub`. */
  lemma KeyPathTail(parent: string, key: string, sub: string, q: string, p: string)
    requires IsValidKey(key)
    requires q == AtKey(parent, key).value && p == AtPath(q, sub)
    ensures |q| <= |p|
    ensures |q| == |p| || p[|q|] == '.' || p[|q|] == '['
    ensures RestAfterKey(p, |q|) == sub
  {
    var tail := if sub == "" then "" else if sub[0] == '[' then sub else "." + sub;
    assert p == q + tail;
    if sub != "" {
      assert p[|q|..] == tail;
      if sub[0] != '[' {
        assert p[|q| + 1..] == sub;
      }
    }
  }

  /**
   * `nextKey` splits off exactly the key step that `at(key)` added: walking from `parent`
   * into `parent.key` followed by `sub` yields `(key, sub)`.
   */
  lemma NextKeyOfAt(parent: string, key: string, sub: string)
    requires IsValidKey(key)
    ensures NextKey(AtPath(AtKey(parent, key).value, sub), parent) == Some((key, sub))
  {
    var pre := if parent == "" then "" else parent + ".";
    var q := AtKey(parent, key).value;
    var p := AtPath(q, sub);
    KeyPathLayout(parent, key, sub, pre, q, p);
    KeyPathTail(parent, key, sub, q, p);
    KeyEndAt(p, |parent| + 1, |q|);
  }
}
