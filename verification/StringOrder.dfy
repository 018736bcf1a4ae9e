/** The order of strcmp on strings without NUL, and of memcmp on equal lengths:
    the first differing character decides, and a proper prefix is smaller. */
module StringOrder {

  function Cmp(a: string, b: string): int {
    if a == [] && b == [] then 0
    else if a == [] then -1
    else if b == [] then 1
    else if a[0] != b[0] then (a[0] as int) - (b[0] as int)
    else Cmp(a[1..], b[1..])
  }

  predicate Less(a: string, b: string) { Cmp(a, b) < 0 }

  lemma {:induction false} CmpZero(a: string, b: string)
    ensures Cmp(a, b) == 0 <==> a == b
    decreases |a|
  {
    if a != [] && b != [] && a[0] == b[0] {
      CmpZero(a[1..], b[1..]);
      assert a == [a[0]] + a[1..] && b == [b[0]] + b[1..];
    }
  }

  lemma {:induction false} CmpSwap(a: string, b: string)
    ensures Cmp(a, b) == -Cmp(b, a)
    decreases |a|
  {
    if a != [] && b != [] && a[0] == b[0] { CmpSwap(a[1..], b[1..]); }
  }

  lemma {:induction false} LessTransitive(a: string, b: string, c: string)
    requires Less(a, b) && Less(b, c)
    ensures Less(a, c)
    decreases |a|
  {
    if a != [] && b != [] && c != [] && a[0] == b[0] == c[0] { LessTransitive(a[1..], b[1..], c[1..]); }
  }

  ghost predicate Sorted(s: seq<string>) {
    forall i, j :: 0 <= i < j < |s| ==> Less(s[i], s[j])
  }

  lemma SortedDistinct(s: seq<string>)
    requires Sorted(s)
    ensures forall i, j :: 0 <= i < j < |s| ==> s[i] != s[j]
  {
    forall i, j | 0 <= i < j < |s| ensures s[i] != s[j] { CmpZero(s[i], s[j]); }
  }

  /** Inserting between what is smaller and what is larger keeps the order. */
  lemma SortedInsert(s: seq<string>, k: nat, x: string)
    requires Sorted(s) && k <= |s|
    requires forall i :: 0 <= i < k ==> Less(s[i], x)
    requires k < |s| ==> Less(x, s[k])
    ensures Sorted(s[..k] + [x] + s[k..])
  {
    var t := s[..k] + [x] + s[k..];
    forall i, j | 0 <= i < j < |t| ensures Less(t[i], t[j]) {
      if i == k && j > k + 1 { LessTransitive(x, s[k], s[j - 1]); }
    }
  }
}
