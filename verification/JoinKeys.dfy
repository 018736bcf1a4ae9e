/** The comparison of join fields as bytes in memory, and when it is a total order
    of the keys. */
module JoinKeys {
  import opened Join
  import opened StringOrder

  /** A field, and what follows it in its line up to the NUL that ends the line. */
  datatype Field = Field(key: string, after: string)

  /** `memcmp` on n bytes.  Where a text ends before a difference was found the
      result is not the source's; `StaysInLines` shows that this does not happen. */
  function Memcmp(a: string, b: string, n: nat): int {
    if n == 0 || a == "" || b == "" then 0
    else if a[0] != b[0] then (a[0] as int) - (b[0] as int)
    else Memcmp(a[1..], b[1..], n - 1)
  }

  /** As many bytes as the longer key has, whatever follows the shorter one. */
  function CompareFields(a: Field, b: Field): int {
    Memcmp(a.key + a.after, b.key + b.after, if |a.key| > |b.key| then |a.key| else |b.key|)
  }

  /** A line in memory: one NUL, at its end. */
  ghost predicate InMemory(f: Field) {
    f.after != "" && f.after[|f.after| - 1] == '\0' && '\0' !in f.key && '\0' !in f.after[..|f.after| - 1]
  }

  predicate SameSign(x: int, y: int) { (x < 0 <==> y < 0) && (x > 0 <==> y > 0) }

  /** Up to the end of the shorter key the keys decide.  If that is the start of
      the longer one, what follows it in its line decides. */
  lemma {:induction false} KeysThenRest(a: Field, b: Field)
    ensures !(a.key <= b.key) && !(b.key <= a.key) ==> SameSign(CompareFields(a, b), Cmp(a.key, b.key))
    ensures a.key <= b.key ==>
              CompareFields(a, b) == Memcmp(a.after, b.key[|a.key|..] + b.after, |b.key| - |a.key|)
    ensures b.key <= a.key ==>
              CompareFields(a, b) == Memcmp(a.key[|b.key|..] + a.after, b.after, |a.key| - |b.key|)
    decreases |a.key|
  {
    if a.key == "" || b.key == "" {
      assert "" + a.after == a.after && "" + b.after == b.after;
      assert a.key[0..] == a.key && b.key[0..] == b.key;
    } else if a.key[0] == b.key[0] {
      var a1, b1 := Field(a.key[1..], a.after), Field(b.key[1..], b.after);
      assert (a.key + a.after)[1..] == a1.key + a1.after && (b.key + b.after)[1..] == b1.key + b1.after;
      assert a.key <= b.key <==> a1.key <= b1.key;
      assert b.key <= a.key <==> b1.key <= a1.key;
      KeysThenRest(a1, b1);
      if a.key <= b.key { assert b.key[|a.key|..] == b1.key[|a1.key|..]; }
      if b.key <= a.key { assert a.key[|b.key|..] == a1.key[|b1.key|..]; }
    }
  }

  /** Of two texts that end in a NUL, with n not past either NUL, one differs from
      the other within n bytes, or both have n bytes. */
  lemma {:induction false} LineEnds(a: string, b: string, n: nat)
    requires n <= |a| || n <= |b|
    requires |a| < n ==> a != "" && a[|a| - 1] == '\0' && '\0' !in b[..n]
    requires |b| < n ==> b != "" && b[|b| - 1] == '\0' && '\0' !in a[..n]
    ensures Memcmp(a, b, n) == 0 ==> n <= |a| && n <= |b| && a[..n] == b[..n]
    decreases n
  {
    if n > 0 && a != "" && b != "" && a[0] == b[0] {
      if |a| < n { assert b[..n][0] == b[0] && b[..n][1..] == b[1..][..n - 1]; }
      if |b| < n { assert a[..n][0] == a[0] && a[..n][1..] == a[1..][..n - 1]; }
      LineEnds(a[1..], b[1..], n - 1);
      if n <= |a| && n <= |b| { assert a[..n] == [a[0]] + a[1..][..n - 1] && b[..n] == [b[0]] + b[1..][..n - 1]; }
    }
  }

  /** So the comparison never depends on what follows a line in memory. */
  lemma StaysInLines(a: Field, b: Field)
    requires InMemory(a) && InMemory(b)
    ensures var s, t, n := a.key + a.after, b.key + b.after, if |a.key| > |b.key| then |a.key| else |b.key|;
            CompareFields(a, b) == 0 ==> n <= |s| && n <= |t| && s[..n] == t[..n]
  {
    assert |a.key| >= |b.key| ==> (a.key + a.after)[..|a.key|] == a.key;
    assert |b.key| >= |a.key| ==> (b.key + b.after)[..|b.key|] == b.key;
    LineEnds(a.key + a.after, b.key + b.after, if |a.key| > |b.key| then |a.key| else |b.key|);
  }

  /** Fields separated by blanks, of keys without control characters. */
  ghost predicate Blanked(f: Field) {
    f.after != "" && f.after[0] in {' ', '\t', '\0'} && forall i :: 0 <= i < |f.key| ==> f.key[i] > ' '
  }

  /** Then the comparison is that of the keys. */
  lemma BlankedByKey(a: Field, b: Field)
    requires Blanked(a) && Blanked(b)
    ensures SameSign(CompareFields(a, b), Cmp(a.key, b.key))
  {
    KeysThenRest(a, b);
    if a.key <= b.key {
      CmpPrefix(a.key, b.key);
      if |a.key| < |b.key| { assert (b.key[|a.key|..] + b.after)[0] == b.key[|a.key|]; }
    } else if b.key <= a.key {
      CmpPrefix(b.key, a.key);
      CmpSwap(a.key, b.key);
      assert (a.key[|b.key|..] + a.after)[0] == a.key[|b.key|];
    }
  }

  lemma {:induction false} CmpPrefix(a: string, b: string)
    requires a <= b
    ensures if |a| < |b| then Cmp(a, b) < 0 else Cmp(a, b) == 0
    decreases |a|
  {
    if a != "" { CmpPrefix(a[1..], b[1..]); }
  }

  /** And that is a total order, as the merge needs. */
  lemma KeysTotal()
    ensures Total(Cmp)
  {
    forall x, y ensures Two(Cmp, x, y) {
      CmpZero(x, y);
      CmpSwap(x, y);
    }
    forall x, y, z ensures Three(Cmp, x, y, z) {
      CmpZero(y, z);
      if Less(x, y) && Less(y, z) { LessTransitive(x, y, z); }
    }
  }

  // ----------------------------------------------------------- separators

  ghost predicate Inside(sep: string, key: string) {
    exists i :: 0 <= i <= |key| && sep <= key[i..]
  }

  /** A field as the line is split: its key has no separator in it, and is followed
      by one or by the end of the line. */
  ghost predicate Fits(f: Field, seps: set<string>) {
    && InMemory(f) && (forall sep :: sep in seps ==> !Inside(sep, f.key))
    && (f.after == "\0" || exists sep :: sep in seps && sep <= f.after)
  }

  /** A separator is below what y has after the text of x.  Of one byte, it is
      below the character there. */
  ghost predicate Under(sep: string, x: string, y: string)
    requires x < y
  {
    Memcmp(sep, y[|x|..], |y| - |x|) < 0
  }

  lemma OneByte(sep: string, x: string, y: string)
    requires |sep| == 1 && x < y && sep[0] !in y
    ensures Under(sep, x, y) <==> sep[0] < y[|x|]
  {
    assert y[|x|..][0] == y[|x|];
  }

  /** No key is the start of another that goes on with what is not above a
      separator. */
  ghost predicate Separated(keys: set<string>, seps: set<string>) {
    forall x, y, sep :: x in keys && y in keys && x < y && sep in seps ==> Under(sep, x, y)
  }

  lemma {:induction false} MemcmpWithin(s: string, x: string, t: string, y: string, n: nat)
    requires n <= |t| && !(s <= t && |s| < n)
    ensures Memcmp(s + x, t + y, n) == Memcmp(s, t, n)
    decreases n
  {
    if n > 0 {
      assert s != "" && (s + x)[0] == s[0] && (t + y)[0] == t[0];
      if s[0] == t[0] {
        assert (s + x)[1..] == s[1..] + x && (t + y)[1..] == t[1..] + y;
        assert s[1..] <= t[1..] ==> s <= t;
        MemcmpWithin(s[1..], x, t[1..], y, n - 1);
      }
    }
  }

  lemma {:induction false} MemcmpSwap(s: string, t: string, n: nat)
    ensures Memcmp(s, t, n) == -Memcmp(t, s, n)
    decreases n
  {
    if n > 0 && s != "" && t != "" && s[0] == t[0] { MemcmpSwap(s[1..], t[1..], n - 1); }
  }

  lemma {:induction false} MemcmpSelf(s: string, n: nat)
    ensures Memcmp(s, s, n) == 0
    decreases n
  {
    if n > 0 && s != "" { MemcmpSelf(s[1..], n - 1); }
  }

  /** In the middle of a line the separator takes part in the comparison with a
      longer key. */
  lemma SeparatorDecides(a: Field, b: Field, sep: string)
    requires a.key < b.key && sep <= a.after && !Inside(sep, b.key)
    ensures CompareFields(a, b) == Memcmp(sep, b.key[|a.key|..], |b.key| - |a.key|)
  {
    var rest := b.key[|a.key|..];
    KeysThenRest(a, b);
    assert a.after == sep + a.after[|sep|..];
    MemcmpWithin(sep, a.after[|sep|..], rest, b.after, |rest|);
  }

  /** At the end of a line a shorter key comes first. */
  lemma EndDecides(a: Field, b: Field)
    requires a.key < b.key && a.after == "\0" && '\0' !in b.key
    ensures CompareFields(a, b) < 0
  {
    KeysThenRest(a, b);
    var rest := b.key[|a.key|..] + b.after;
    assert rest[0] == b.key[|a.key|] && b.key[|a.key|] in b.key;
  }

  lemma SeparatedPair(a: Field, b: Field, keys: set<string>, seps: set<string>)
    requires Separated(keys, seps) && Fits(a, seps) && Fits(b, seps) && a.key in keys && b.key in keys && a.key < b.key
    ensures CompareFields(a, b) < 0
  {
    if a.after == "\0" {
      EndDecides(a, b);
    } else {
      var sep :| sep in seps && sep <= a.after;
      SeparatorDecides(a, b, sep);
      assert Under(sep, a.key, b.key);
    }
  }

  /** The fields of some files, of which only the keys are known, compare as ord
      says of the keys. */
  ghost predicate ComparesBy(ord: Order, keys: set<string>, seps: set<string>) {
    forall a, b :: Fits(a, seps) && Fits(b, seps) && a.key in keys && b.key in keys ==>
                     SameSign(CompareFields(a, b), ord(a.key, b.key))
  }

  /** Keys as lines are split into. */
  ghost predicate Clean(keys: set<string>, seps: set<string>) {
    && (forall x :: x in keys ==> '\0' !in x && forall sep :: sep in seps ==> !Inside(sep, x))
    && (forall sep :: sep in seps ==> '\0' !in sep)
  }

  lemma SeparatedByKey(keys: set<string>, seps: set<string>)
    requires Separated(keys, seps)
    ensures ComparesBy(Cmp, keys, seps)
  {
    forall a, b | Fits(a, seps) && Fits(b, seps) && a.key in keys && b.key in keys
      ensures SameSign(CompareFields(a, b), Cmp(a.key, b.key))
    {
      KeysThenRest(a, b);
      if a.key < b.key {
        CmpPrefix(a.key, b.key);
        SeparatedPair(a, b, keys, seps);
      } else if b.key < a.key {
        CmpPrefix(b.key, a.key);
        CmpSwap(a.key, b.key);
        SeparatedPair(b, a, keys, seps);
        FieldsSwap(a, b);
      } else if a.key == b.key {
        CmpZero(a.key, b.key);
      }
    }
  }

  lemma FieldsSwap(a: Field, b: Field)
    ensures CompareFields(a, b) == -CompareFields(b, a)
  {
    MemcmpSwap(a.key + a.after, b.key + b.after, if |a.key| > |b.key| then |a.key| else |b.key|);
  }

  /** Two keys that are not separated: one order at the end of a line, the other, or
      none, in the middle. */
  lemma TwoWays(x: string, y: string, sep: string, seps: set<string>)
    requires sep in seps && x < y && Clean({x, y}, seps) && !Under(sep, x, y)
    ensures var end, mid, b := Field(x, "\0"), Field(x, sep + "\0"), Field(y, "\0");
            && Fits(end, seps) && Fits(mid, seps) && Fits(b, seps)
            && CompareFields(end, b) < 0 <= CompareFields(mid, b)
  {
    var end, mid, b := Field(x, "\0"), Field(x, sep + "\0"), Field(y, "\0");
    assert x in {x, y} && y in {x, y};
    assert (sep + "\0")[..|sep|] == sep && "\0"[..0] == "";
    EndDecides(end, b);
    SeparatorDecides(mid, b, sep);
  }

  /** The source's comparison is an order of the keys, and then it is that of their
      bytes, if and only if the keys are separated. */
  lemma OrderOfKeysIff(keys: set<string>, seps: set<string>)
    requires Clean(keys, seps)
    ensures ComparesBy(Cmp, keys, seps) <==> Separated(keys, seps)
    ensures forall ord :: ComparesBy(ord, keys, seps) ==> Separated(keys, seps)
  {
    if Separated(keys, seps) {
      SeparatedByKey(keys, seps);
    } else {
      var x, y, sep :| x in keys && y in keys && x < y && sep in seps && !Under(sep, x, y);
      TwoWays(x, y, sep, seps);
      forall ord ensures !ComparesBy(ord, keys, seps) {
        var end, mid, b := Field(x, "\0"), Field(x, sep + "\0"), Field(y, "\0");
        assert end.key == mid.key == x && b.key == y;
      }
    }
  }

  /** Blanks are below all characters that are no control characters. */
  lemma BlanksSeparate(keys: set<string>)
    requires forall x, i :: x in keys && 0 <= i < |x| ==> x[i] > ' '
    ensures Separated(keys, {" ", "\t"}) && Clean(keys, {" ", "\t"})
  {
    forall x, y, sep | x in keys && y in keys && x < y && sep in {" ", "\t"} ensures Under(sep, x, y) {
      OneByte(sep, x, y);
    }
    forall x, sep | x in keys && sep in {" ", "\t"} ensures !Inside(sep, x) {
      forall i | 0 <= i <= |x| ensures !(sep <= x[i..]) {
        assert i < |x| ==> x[i..][0] == x[i];
      }
    }
  }

  /** For one character as with `-t`: the comparison is that of the keys if and only
      if no key is the start of another that goes on with a character below it. */
  lemma OneByteIff(keys: set<string>, c: char)
    requires c != '\0' && forall x :: x in keys ==> c !in x && '\0' !in x
    ensures ComparesBy(Cmp, keys, {[c]}) <==> forall x, y :: x in keys && y in keys && x < y ==> c < y[|x|]
    ensures forall ord :: ComparesBy(ord, keys, {[c]}) ==> ComparesBy(Cmp, keys, {[c]})
  {
    forall x | x in keys ensures !Inside([c], x) {
      forall i | 0 <= i <= |x| ensures !([c] <= x[i..]) {
        assert i < |x| ==> x[i..][0] == x[i];
      }
    }
    forall x, y | x in keys && y in keys && x < y ensures Under([c], x, y) <==> c < y[|x|] {
      OneByte([c], x, y);
    }
    OrderOfKeysIff(keys, {[c]});
  }

  /** With another separator it is no order of the keys: with `-t :` the key `a` is
      past `a1` in the middle of a line and before it at the end. */
  lemma ColonOrder()
    ensures CompareFields(Field("a", ":\0"), Field("a1", "\0")) > 0
    ensures CompareFields(Field("a", "\0"), Field("a1", "\0")) < 0
  {
    var x, y, z := "a" + ":\0", "a" + "\0", "a1" + "\0";
    assert x[1..] == ":\0" && y[1..] == "\0" && z[1..] == "1\0";
    assert Memcmp(":\0", "1\0", 1) > 0 && Memcmp("\0", "1\0", 1) < 0;
    assert Memcmp(x, z, 2) == Memcmp(x[1..], z[1..], 1) && Memcmp(y, z, 2) == Memcmp(y[1..], z[1..], 1);
  }
}
