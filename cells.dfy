/** Cell values as they come out of a CSV export, the string operations the
    source applies to them, and the collaborators the core calls but does not
    define (which the model takes as parameters). */
module Cells {

  datatype Option<+T> = None | Some(value: T)

  /** One cell of a pandas DataFrame: NaN (an empty CSV field), a `str`, or an
      `int`/`float`. */
  datatype Cell = Missing | Text(s: string) | Num(v: real)

  /** The external collaborators of the core.
      - `parseFloat`: Python's `float()` applied to a `str`; `None` where it raises `ValueError`.
      - `log10`: `math.log10`.
      - `isIndustry`, `categoryOf`: `is_industry_index` and `get_index_category` of the
        index_categories module, applied to an index-name cell.
      - `formatPercent`: the `.2f` formatting of a float.
      - `formatOneDecimal`: the `.1f` formatting of a float. */
  datatype Env = Env(
    parseFloat: string -> Option<real>,
    log10: real -> real,
    isIndustry: Cell -> bool,
    categoryOf: Cell -> string,
    formatPercent: real -> string,
    formatOneDecimal: real -> string)

  /** `s.startswith(c)` for a one-character prefix. */
  predicate StartsWith(s: string, c: char) {
    |s| > 0 && s[0] == c
  }

  /** `s.replace(c, '')`: every occurrence of `c` removed. */
  function RemoveAll(s: string, c: char): (r: string)
    ensures c !in r
    ensures |r| <= |s|
  {
    if s == [] then [] else (if s[0] == c then [] else [s[0]]) + RemoveAll(s[1..], c)
  }

  lemma {:induction false} RemoveAllAppend(a: string, b: string, c: char)
    ensures RemoveAll(a + b, c) == RemoveAll(a, c) + RemoveAll(b, c)
  {
    if a != [] {
      assert (a + b)[1..] == a[1..] + b;
      RemoveAllAppend(a[1..], b, c);
    } else {
      assert a + b == b;
    }
  }

  lemma {:induction false} RemoveAllAbsent(s: string, c: char)
    requires c !in s
    ensures RemoveAll(s, c) == s
  {
    if s != [] {
      assert c !in s[1..];
      RemoveAllAbsent(s[1..], c);
      assert [s[0]] + s[1..] == s;
    }
  }
}
