/**
  Directory-entry names and paths as the scripts handle them: Python's
  ordering of `str` values (used by `sorted(os.listdir(...))`), `str.endswith`,
  and the two ways the scripts glue a directory and an entry name into a path
  (`os.path.join` in main.py, an f-string with `/` in tagged.py and
  DAPI_count.py).
*/
module Names {

  /** Python's `a <= b` on `str`: code point by code point, a proper prefix first. */
  predicate Le(a: string, b: string) {
    a == [] || (b != [] && (a[0] < b[0] || (a[0] == b[0] && Le(a[1..], b[1..]))))
  }

  /** Python's `a < b` on `str`. */
  predicate Less(a: string, b: string) {
    Le(a, b) && a != b
  }

  lemma {:induction false} LeTotal(a: string, b: string)
    ensures Le(a, b) || Le(b, a)
  {
    if a != [] && b != [] && a[0] == b[0] {
      LeTotal(a[1..], b[1..]);
    }
  }

  lemma {:induction false} LeTransitive(a: string, b: string, c: string)
    requires Le(a, b) && Le(b, c)
    ensures Le(a, c)
  {
    if a != [] && b != [] && c != [] && a[0] == b[0] == c[0] {
      LeTransitive(a[1..], b[1..], c[1..]);
    }
  }

  /** Every pair of positions is in order. */
  predicate Sorted(s: seq<string>) {
    forall i, j :: 0 <= i < j < |s| ==> Le(s[i], s[j])
  }

  /** No name occurs twice (what `os.listdir` guarantees of a directory). */
  predicate NoRepeats(s: seq<string>) {
    forall i, j :: 0 <= i < j < |s| ==> s[i] != s[j]
  }

  /** Sorted and without repeats: every pair is strictly ordered. */
  predicate StrictlySorted(s: seq<string>) {
    forall i, j :: 0 <= i < j < |s| ==> Less(s[i], s[j])
  }

  /** Inserts `x` in front of the first element it does not exceed. */
  function Insert(x: string, s: seq<string>): (r: seq<string>)
    ensures multiset(r) == multiset(s) + multiset{x}
  {
    if s == [] then [x]
    else if Le(x, s[0]) then [x] + s
    else
      assert s == [s[0]] + s[1..];
      [s[0]] + Insert(x, s[1..])
  }

  lemma {:induction false} InsertSorted(x: string, s: seq<string>)
    requires Sorted(s)
    ensures Sorted(Insert(x, s))
  {
    if s == [] {
    } else if Le(x, s[0]) {
      forall k | 0 <= k < |s| ensures Le(x, s[k]) {
        if k > 0 { LeTransitive(x, s[0], s[k]); }
      }
    } else {
      LeTotal(x, s[0]);
      var t := s[1..];
      InsertSorted(x, t);
      var r := Insert(x, t);
      forall k | 0 <= k < |r| ensures Le(s[0], r[k]) {
        assert r[k] in multiset(r);
        if r[k] != x {
          assert r[k] in multiset(t);
          var m :| 0 <= m < |t| && t[m] == r[k];
          assert s[m + 1] == r[k];
        }
      }
    }
  }

  /** Python's `sorted(names)` on a list of `str`. */
  function Sort(s: seq<string>): (r: seq<string>)
    ensures multiset(r) == multiset(s)
    ensures Sorted(r)
  {
    if s == [] then []
    else
      assert s == [s[0]] + s[1..];
      var rest := Sort(s[1..]);
      InsertSorted(s[0], rest);
      Insert(s[0], rest)
  }

  lemma {:induction false} NoRepeatsMultiplicity(s: seq<string>, x: string)
    requires NoRepeats(s)
    ensures multiset(s)[x] <= 1
  {
    if s != [] {
      assert s == [s[0]] + s[1..];
      assert s[0] !in s[1..];
      NoRepeatsMultiplicity(s[1..], x);
    }
  }

  lemma RepeatMultiplicity(s: seq<string>, i: nat, j: nat)
    requires i < j < |s| && s[i] == s[j]
    ensures multiset(s)[s[i]] >= 2
  {
    assert s == s[..i] + [s[i]] + s[i + 1..j] + [s[j]] + s[j + 1..];
  }

  /** Sorting a listing without repeated names orders every pair strictly. */
  lemma SortStrict(s: seq<string>)
    requires NoRepeats(s)
    ensures StrictlySorted(Sort(s))
  {
    var r := Sort(s);
    forall i, j | 0 <= i < j < |r| ensures r[i] != r[j] {
      if r[i] == r[j] {
        RepeatMultiplicity(r, i, j);
        NoRepeatsMultiplicity(s, r[i]);
      }
    }
  }

  /** Python's `s.endswith(suffix)`. */
  predicate EndsWith(s: string, suffix: string) {
    |suffix| <= |s| && s[|s| - |suffix|..] == suffix
  }

  /** Python's `os.path.join(a, b)` on POSIX: an absolute `b` replaces `a`. */
  function PosixJoin(a: string, b: string): string {
    if |b| > 0 && b[0] == '/' then b
    else if a == "" || a[|a| - 1] == '/' then a + b
    else a + "/" + b
  }

  /** The f-string path `f"{a}/{b}"`. */
  function SlashJoin(a: string, b: string): string {
    a + "/" + b
  }

  /**
    A suffix without `/` is seen through a path separator: the text in front
    of the separator cannot help a name end with it.
  */
  lemma SuffixAfterSeparator(y: string, n: string, suffix: string)
    requires y == "" || y[|y| - 1] == '/'
    requires '/' !in suffix
    ensures EndsWith(y + n, suffix) <==> EndsWith(n, suffix)
  {
    var s := y + n;
    if |suffix| <= |n| {
      assert s[|s| - |suffix|..] == n[|n| - |suffix|..];
    } else if |suffix| <= |s| {
      // the window of the last |suffix| characters reaches back over the separator
      var start := |s| - |suffix|;
      assert s[start..][|y| - 1 - start] == s[|y| - 1] == '/';
    }
  }

  /** A path joiner under which a path ends with `suffix` exactly when its last name does. */
  ghost predicate KeepsSuffix(join: (string, string) -> string, suffix: string) {
    forall d, n :: EndsWith(join(d, n), suffix) <==> EndsWith(n, suffix)
  }

  lemma PosixJoinKeepsSuffix(suffix: string)
    requires '/' !in suffix
    ensures KeepsSuffix(PosixJoin, suffix)
  {
    forall d, n ensures EndsWith(PosixJoin(d, n), suffix) <==> EndsWith(n, suffix) {
      if |n| > 0 && n[0] == '/' {
      } else if d == "" || d[|d| - 1] == '/' {
        SuffixAfterSeparator(d, n, suffix);
      } else {
        assert d + "/" + n == (d + "/") + n;
        SuffixAfterSeparator(d + "/", n, suffix);
      }
    }
  }

  lemma SlashJoinKeepsSuffix(suffix: string)
    requires '/' !in suffix
    ensures KeepsSuffix(SlashJoin, suffix)
  {
    forall d, n ensures EndsWith(SlashJoin(d, n), suffix) <==> EndsWith(n, suffix) {
      assert d + "/" + n == (d + "/") + n;
      SuffixAfterSeparator(d + "/", n, suffix);
    }
  }
}
