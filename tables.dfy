/** A DataFrame as a header and rows of cells, and the table operations the
    core uses: column lookup, column renaming, boolean-mask row selection and
    a multi-key sort. */
module Tables {
  import opened Cells

  /** A DataFrame: column labels and one sequence of cells per row. */
  datatype Table = Table(header: seq<string>, rows: seq<seq<Cell>>)

  /** The position of the first column labelled `name`. */
  function ColumnIndex(header: seq<string>, name: string): (r: Option<nat>)
    ensures r.None? <==> name !in header
    ensures r.Some? ==> r.value < |header| && header[r.value] == name
    ensures r.Some? ==> forall k :: 0 <= k < r.value ==> header[k] != name
  {
    if header == [] then None
    else if header[0] == name then Some(0)
    else match ColumnIndex(header[1..], name)
      case None => None
      case Some(k) => Some(k + 1)
  }

  /** `row[name]`: the cell of the first column labelled `name` (a DataFrame's
      rows are as wide as its header; a short row reads as missing). */
  function Get(header: seq<string>, row: seq<Cell>, name: string): Cell {
    match ColumnIndex(header, name)
    case Some(i) => if i < |row| then row[i] else Missing
    case None => Missing
  }

  /** `df.rename(columns=m)`: every label that is a key of `m` is replaced by
      its image, all others are kept, in place. */
  function RenameLabels(header: seq<string>, m: map<string, string>): (r: seq<string>)
    ensures |r| == |header|
    ensures forall i :: 0 <= i < |header| ==> r[i] == if header[i] in m then m[header[i]] else header[i]
  {
    seq(|header|, i requires 0 <= i < |header| => if header[i] in m then m[header[i]] else header[i])
  }

  // ---------------------------------------------------------------- selection

  /** `df[mask]` where `mask` holds `p` of each row: the rows satisfying `p`,
      in their original order. */
  function Filter<T>(s: seq<T>, p: T -> bool): seq<T>
    decreases |s|
  {
    if s == [] then []
    else Filter(s[..|s| - 1], p) + (if p(s[|s| - 1]) then [s[|s| - 1]] else [])
  }

  /** Every survivor satisfies the mask and every row satisfying it survives. */
  lemma {:induction false} FilterMembers<T>(s: seq<T>, p: T -> bool)
    ensures |Filter(s, p)| <= |s|
    ensures forall x :: x in Filter(s, p) <==> x in s && p(x)
    decreases |s|
  {
    if s != [] {
      FilterMembers(s[..|s| - 1], p);
      assert s == s[..|s| - 1] + [s[|s| - 1]];
    }
  }

  /** `b` with some elements deleted is `a`. */
  predicate Subseq<T(==)>(a: seq<T>, b: seq<T>)
    decreases |b|
  {
    if a == [] then true
    else if b == [] then false
    else if a[|a| - 1] == b[|b| - 1] then Subseq(a[..|a| - 1], b[..|b| - 1])
    else Subseq(a, b[..|b| - 1])
  }

  /** Selecting rows only deletes rows: the survivors keep their relative order. */
  lemma {:induction false} FilterIsSubseq<T>(s: seq<T>, p: T -> bool)
    ensures Subseq(Filter(s, p), s)
    decreases |s|
  {
    if s != [] {
      var init, last := s[..|s| - 1], s[|s| - 1];
      FilterIsSubseq(init, p);
      if !p(last) {
        var f := Filter(init, p);
        assert Filter(s, p) == f;
        if f != [] {
          FilterMembers(init, p);
          assert f[|f| - 1] in f;
          assert f[|f| - 1] != last;
        }
      } else {
        var f := Filter(s, p);
        assert f[..|f| - 1] == Filter(init, p);
      }
    }
  }

  /** A mask that holds everywhere keeps every row. */
  lemma {:induction false} FilterAll<T>(s: seq<T>, p: T -> bool)
    requires forall x :: p(x)
    ensures Filter(s, p) == s
    decreases |s|
  {
    if s != [] {
      FilterAll(s[..|s| - 1], p);
    }
  }

  /** A mask that holds for no row keeps none. */
  lemma {:induction false} FilterNone<T>(s: seq<T>, p: T -> bool)
    requires forall i :: 0 <= i < |s| ==> !p(s[i])
    ensures Filter(s, p) == []
    decreases |s|
  {
    if s != [] {
      FilterNone(s[..|s| - 1], p);
    }
  }

  /** Masking a concatenation masks each part. */
  lemma {:induction false} FilterAppend<T>(a: seq<T>, b: seq<T>, p: T -> bool)
    ensures Filter(a + b, p) == Filter(a, p) + Filter(b, p)
    decreases |b|
  {
    if b == [] {
      assert a + b == a;
    } else {
      var init := b[..|b| - 1];
      assert (a + b)[..|a + b| - 1] == a + init;
      assert (a + b)[|a + b| - 1] == b[|b| - 1];
      FilterAppend(a, init, p);
    }
  }

  /** The mask "is not `c`". */
  function Other(c: char): char -> bool {
    (x: char) => x != c
  }

  /** `s.replace(c, '')` keeps exactly the other characters, in order. */
  lemma {:induction false} RemoveAllFilters(s: string, c: char)
    ensures RemoveAll(s, c) == Filter(s, Other(c))
    decreases |s|
  {
    if s != [] {
      var head := if s[0] == c then [] else [s[0]];
      assert RemoveAll(s, c) == head + RemoveAll(s[1..], c);
      RemoveAllFilters(s[1..], c);
      assert s == [s[0]] + s[1..];
      FilterAppend([s[0]], s[1..], Other(c));
      FilterSingle(s[0], Other(c));
    }
  }

  lemma FilterSingle<T>(x: T, p: T -> bool)
    ensures Filter([x], p) == if p(x) then [x] else []
  {
    assert [x][..0] == [];
  }

  /** Two successive masks select what their conjunction selects. */
  lemma {:induction false} FilterTwice<T>(s: seq<T>, p: T -> bool, q: T -> bool, pq: T -> bool)
    requires forall x :: pq(x) == (p(x) && q(x))
    ensures Filter(Filter(s, p), q) == Filter(s, pq)
    decreases |s|
  {
    if s != [] {
      var init, last := s[..|s| - 1], s[|s| - 1];
      FilterTwice(init, p, q, pq);
      var f := Filter(init, p);
      assert s[..|s| - 1] == init;
      if p(last) {
        assert Filter(s, p) == f + [last];
        assert (f + [last])[..|f + [last]| - 1] == f;
        assert Filter(f + [last], q) == Filter(f, q) + (if q(last) then [last] else []);
      } else {
        assert Filter(s, p) == f;
        assert !pq(last);
      }
    }
  }

  /** Applies a boolean mask row by row. */
  method KeepWhere<T>(s: seq<T>, p: T -> bool) returns (kept: seq<T>)
    ensures kept == Filter(s, p)
  {
    kept := [];
    for i := 0 to |s|
      invariant kept == Filter(s[..i], p)
    {
      assert s[..i + 1][..i] == s[..i];
      if p(s[i]) {
        kept := kept + [s[i]];
      }
    }
    assert s[..|s|] == s;
  }

  // ---------------------------------------------------------------- row-wise apply

  /** `apply` of a step that may raise to every row: `None` as soon as one row raises. */
  function MapAll<A, B>(s: seq<A>, f: A -> Option<B>): (r: Option<seq<B>>)
    ensures r.Some? ==> |r.value| == |s|
    ensures r.Some? ==> forall i :: 0 <= i < |s| ==> f(s[i]) == Some(r.value[i])
    ensures r.None? <==> exists i :: 0 <= i < |s| && f(s[i]).None?
    decreases |s|
  {
    if s == [] then Some([])
    else
      match MapAll(s[..|s| - 1], f)
      case None => None
      case Some(prefix) =>
        match f(s[|s| - 1])
        case None => None
        case Some(last) => Some(prefix + [last])
  }

  /** Applies the step row by row, stopping at the first row that raises. */
  method MapEach<A, B>(s: seq<A>, f: A -> Option<B>) returns (result: Option<seq<B>>)
    ensures result == MapAll(s, f)
  {
    var done: seq<B> := [];
    for i := 0 to |s|
      invariant MapAll(s[..i], f) == Some(done)
    {
      assert s[..i + 1][..i] == s[..i];
      var r := f(s[i]);
      if r.None? {
        assert MapAll(s, f).None?;
        return None;
      }
      done := done + [r.value];
    }
    assert s[..|s|] == s;
    return Some(done);
  }

  /** `apply` of a step that cannot raise: `f` of every row, in order. */
  function Mapped<A, B>(s: seq<A>, f: A -> B): (r: seq<B>)
    ensures |r| == |s|
    ensures forall i :: 0 <= i < |s| ==> r[i] == f(s[i])
    decreases |s|
  {
    if s == [] then [] else Mapped(s[..|s| - 1], f) + [f(s[|s| - 1])]
  }

  /** Applies the step row by row. */
  method ApplyEach<A, B>(s: seq<A>, f: A -> B) returns (result: seq<B>)
    ensures result == Mapped(s, f)
  {
    result := [];
    for i := 0 to |s|
      invariant result == Mapped(s[..i], f)
    {
      assert s[..i + 1][..i] == s[..i];
      result := result + [f(s[i])];
    }
    assert s[..|s|] == s;
  }

  // ---------------------------------------------------------------- sorting

  /** `le` is a total preorder: any two elements compare, and it is transitive. */
  ghost predicate TotalPreorder<T(!new)>(le: (T, T) -> bool) {
    && (forall a, b :: le(a, b) || le(b, a))
    && (forall a, b, c :: le(a, b) && le(b, c) ==> le(a, c))
  }

  predicate SortedBy<T>(s: seq<T>, le: (T, T) -> bool) {
    forall i, j :: 0 <= i < j < |s| ==> le(s[i], s[j])
  }

  /** Past the first element that may not precede `x`, `x` may precede them all. */
  lemma AfterInsertPoint<T(!new)>(s: seq<T>, j: nat, x: T, le: (T, T) -> bool)
    requires TotalPreorder(le) && SortedBy(s, le)
    requires j < |s| ==> !le(s[j], x)
    ensures forall k :: j <= k < |s| ==> le(x, s[k])
  {
    forall k | j <= k < |s|
      ensures le(x, s[k])
    {
      assert le(x, s[j]);
      if k > j {
        assert le(s[j], s[k]);
      }
    }
  }

  /** `x` placed between the elements that may precede it and those it may precede. */
  lemma InsertKeepsSorted<T>(s: seq<T>, j: nat, x: T, le: (T, T) -> bool)
    requires j <= |s| && SortedBy(s, le)
    requires forall k :: 0 <= k < j ==> le(s[k], x)
    requires forall k :: j <= k < |s| ==> le(x, s[k])
    ensures SortedBy(s[..j] + [x] + s[j..], le)
  {
    var r := s[..j] + [x] + s[j..];
    forall a, b | 0 <= a < b < |r|
      ensures le(r[a], r[b])
    {
      if b < j {
        assert r[a] == s[a] && r[b] == s[b];
      } else if b == j {
        assert r[a] == s[a] && r[b] == x;
      } else if a < j {
        assert r[a] == s[a] && r[b] == s[b - 1];
      } else if a == j {
        assert r[a] == x && r[b] == s[b - 1];
      } else {
        assert r[a] == s[a - 1] && r[b] == s[b - 1];
      }
    }
  }

  /** Inserts `x` into sorted `s` after every element that may precede it. */
  method InsertSorted<T(==, !new)>(s: seq<T>, x: T, le: (T, T) -> bool) returns (r: seq<T>)
    requires TotalPreorder(le) && SortedBy(s, le)
    ensures SortedBy(r, le)
    ensures multiset(r) == multiset(s) + multiset{x}
  {
    var j := 0;
    while j < |s| && le(s[j], x)
      invariant 0 <= j <= |s|
      invariant forall k :: 0 <= k < j ==> le(s[k], x)
    {
      j := j + 1;
    }
    AfterInsertPoint(s, j, x, le);
    InsertKeepsSorted(s, j, x, le);
    r := s[..j] + [x] + s[j..];
    assert s == s[..j] + s[j..];
  }

  /** `df.sort_values(...)`: a permutation of the rows ordered by `le`. */
  method SortBy<T(==, !new)>(s: seq<T>, le: (T, T) -> bool) returns (r: seq<T>)
    requires TotalPreorder(le)
    ensures SortedBy(r, le)
    ensures multiset(r) == multiset(s)
  {
    r := [];
    for i := 0 to |s|
      invariant SortedBy(r, le)
      invariant multiset(r) == multiset(s[..i])
    {
      assert s[..i + 1] == s[..i] + [s[i]];
      r := InsertSorted(r, s[i], le);
    }
    assert s[..|s|] == s;
  }
}
