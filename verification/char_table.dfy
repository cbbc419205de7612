/** Character tables: a finite list of `(key, image)` pairs read as a map from
    characters to characters that leaves every other character alone. Both
    the superscript decoder of the order summary and the Polish-letter
    normaliser of the receipt printer are built on one of these. */
module CharTable {

  type Table = seq<(char, char)>

  /** The image of `c`: the image of the first entry whose key is `c`, or `c`
      itself when no entry has that key. */
  function Lookup(t: Table, c: char): char
  {
    if |t| == 0 then c
    else if t[0].0 == c then t[0].1
    else Lookup(t[1..], c)
  }

  predicate IsKey(t: Table, c: char)
  {
    exists i :: 0 <= i < |t| && t[i].0 == c
  }

  /** No key occurs twice (a .NET `Dictionary` literal with a repeated key
      throws when it is built). */
  predicate DistinctKeys(t: Table)
  {
    forall i, j :: 0 <= i < j < |t| ==> t[i].0 != t[j].0
  }

  /** No image is itself a key, so applying the table a second time changes nothing. */
  predicate ImagesAreNotKeys(t: Table)
  {
    forall i, j :: 0 <= i < |t| && 0 <= j < |t| ==> t[i].1 != t[j].0
  }

  /** Replaces every character of `s` by its image, one character at a time. */
  function MapString(t: Table, s: string): (r: string)
    ensures |r| == |s|
    ensures forall i :: 0 <= i < |s| ==> r[i] == Lookup(t, s[i])
  {
    if |s| == 0 then []
    else [Lookup(t, s[0])] + MapString(t, s[1..])
  }

  /** `s.Replace(a, b)` for one-character strings `a` and `b`, which .NET
      compares ordinally: every occurrence of `a` becomes `b`. */
  function Replace(s: string, a: char, b: char): (r: string)
    ensures |r| == |s|
    ensures forall i :: 0 <= i < |s| ==> r[i] == (if s[i] == a then b else s[i])
  {
    seq(|s|, i requires 0 <= i < |s| => if s[i] == a then b else s[i])
  }

  /** A chain `s.Replace(k0, v0).Replace(k1, v1)...` over the entries of `t`, in order. */
  function ReplaceChain(s: string, t: Table): (r: string)
    ensures |r| == |s|
    decreases |t|
  {
    if |t| == 0 then s
    else ReplaceChain(Replace(s, t[0].0, t[0].1), t[1..])
  }

  /** A character that is no key maps to itself. */
  lemma {:induction false} LookupOfNonKey(t: Table, c: char)
    requires !IsKey(t, c)
    ensures Lookup(t, c) == c
  {
    if |t| > 0 {
      assert t[0].0 != c;
      LookupOfNonKey(t[1..], c);
    }
  }

  /** A character below every key maps to itself. */
  lemma LookupBelowKeys(t: Table, c: char, bound: int)
    requires forall i :: 0 <= i < |t| ==> t[i].0 as int >= bound
    requires c as int < bound
    ensures Lookup(t, c) == c
  {
    LookupOfNonKey(t, c);
  }

  /** With distinct keys, every entry's key maps to that entry's image. */
  lemma {:induction false} LookupOfEntry(t: Table, i: int)
    requires DistinctKeys(t)
    requires 0 <= i < |t|
    ensures Lookup(t, t[i].0) == t[i].1
  {
    if i > 0 {
      assert t[0].0 != t[i].0;
      assert t[1..][i - 1] == t[i];
      LookupOfEntry(t[1..], i - 1);
    }
  }

  /** The first entry with key `c` gives its image. */
  lemma {:induction false} LookupOfFirst(t: Table, i: int)
    requires 0 <= i < |t|
    requires forall j :: 0 <= j < i ==> t[j].0 != t[i].0
    ensures Lookup(t, t[i].0) == t[i].1
  {
    if i > 0 {
      assert t[1..][i - 1] == t[i];
      LookupOfFirst(t[1..], i - 1);
    }
  }

  /** The image of a key is the image of some entry. */
  lemma {:induction false} LookupOfKey(t: Table, c: char) returns (i: int)
    requires IsKey(t, c)
    ensures 0 <= i < |t| && t[i].0 == c && Lookup(t, c) == t[i].1
  {
    if t[0].0 == c {
      i := 0;
    } else {
      assert IsKey(t[1..], c) by {
        var k :| 0 <= k < |t| && t[k].0 == c;
        assert t[1..][k - 1].0 == c;
      }
      var j := LookupOfKey(t[1..], c);
      i := j + 1;
    }
  }

  /** Looking a character up twice is the same as looking it up once. */
  lemma LookupIdempotent(t: Table, c: char)
    requires ImagesAreNotKeys(t)
    ensures Lookup(t, Lookup(t, c)) == Lookup(t, c)
  {
    if IsKey(t, c) {
      var i := LookupOfKey(t, c);
      assert !IsKey(t, t[i].1);
      LookupOfNonKey(t, t[i].1);
    } else {
      LookupOfNonKey(t, c);
    }
  }

  /** Applying a table whose images are not keys is idempotent on strings. */
  lemma MapStringIdempotent(t: Table, s: string)
    requires ImagesAreNotKeys(t)
    ensures MapString(t, MapString(t, s)) == MapString(t, s)
  {
    var once := MapString(t, s);
    forall i | 0 <= i < |s|
      ensures MapString(t, once)[i] == once[i]
    {
      LookupIdempotent(t, s[i]);
    }
  }

  /** When no image is a key, the sequential replace chain over a table is the
      single character map that the table describes. */
  lemma {:induction false} ReplaceChainIsMapString(s: string, t: Table)
    requires ImagesAreNotKeys(t)
    ensures ReplaceChain(s, t) == MapString(t, s)
    decreases |t|
  {
    if |t| > 0 {
      var rest := t[1..];
      var s1 := Replace(s, t[0].0, t[0].1);
      assert ImagesAreNotKeys(rest) by {
        forall i, j | 0 <= i < |rest| && 0 <= j < |rest|
          ensures rest[i].1 != rest[j].0
        {
          assert rest[i] == t[i + 1] && rest[j] == t[j + 1];
        }
      }
      ReplaceChainIsMapString(s1, rest);
      forall k | 0 <= k < |s|
        ensures MapString(rest, s1)[k] == MapString(t, s)[k]
      {
        if s[k] == t[0].0 {
          assert !IsKey(rest, t[0].1);
          LookupOfNonKey(rest, t[0].1);
        }
      }
    }
  }

  /** A table whose keys each map back to their own position under some
      function has no repeated key. */
  lemma DistinctKeysOfPosition(t: Table, position: char -> int)
    requires forall k :: 0 <= k < |t| ==> position(t[k].0) == k
    ensures DistinctKeys(t)
  {
  }
}
