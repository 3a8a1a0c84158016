/**
 * Ruby's String#split with a one-character separator (any character other than a space)
 * and no limit: the string is cut at every separator, and empty fields at the end of
 * the result are removed, while empty fields at the front and in the middle are kept.
 */
module RubySplit {

  /** Every character of s is c (true of the empty string). */
  predicate OnlyChar(s: string, c: char) {
    forall k | 0 <= k < |s| :: s[k] == c
  }

  /** Every field is the empty string. */
  predicate AllEmpty(fs: seq<string>) {
    forall k | 0 <= k < |fs| :: fs[k] == ""
  }

  /** Position of the first c in s, or |s| when s has none. */
  function IndexOf(s: string, c: char): (i: nat)
    ensures i <= |s|
    ensures c !in s[..i]
    ensures i < |s| ==> s[i] == c
    ensures i == |s| <==> c !in s
  {
    if s == [] then 0
    else if s[0] == c then 0
    else 1 + IndexOf(s[1..], c)
  }

  /** The text between consecutive occurrences of c, empty fields included. */
  function Fields(s: string, c: char): (fs: seq<string>)
    ensures |fs| >= 1
    decreases |s|
  {
    var i := IndexOf(s, c);
    if i == |s| then [s] else [s[..i]] + Fields(s[i + 1..], c)
  }

  /** No field holds the separator. */
  lemma {:induction false} FieldsHaveNoSeparator(s: string, c: char)
    ensures forall k | 0 <= k < |Fields(s, c)| :: c !in Fields(s, c)[k]
    decreases |s|
  {
    var i := IndexOf(s, c);
    if i < |s| {
      var tail := Fields(s[i + 1..], c);
      FieldsHaveNoSeparator(s[i + 1..], c);
      assert Fields(s, c) == [s[..i]] + tail;
      forall k | 1 <= k < |Fields(s, c)| ensures c !in Fields(s, c)[k] {
        assert Fields(s, c)[k] == tail[k - 1];
      }
    }
  }

  /** The fields put back together with c between them. */
  function Join(fs: seq<string>, c: char): string
    decreases |fs|
  {
    if |fs| == 0 then ""
    else if |fs| == 1 then fs[0]
    else fs[0] + [c] + Join(fs[1..], c)
  }

  /** Fields without the run of empty fields at the end. */
  function DropTrailingEmpty(fs: seq<string>): (r: seq<string>)
    ensures r <= fs
    ensures r == [] || r[|r| - 1] != ""
    ensures forall j | |r| <= j < |fs| :: fs[j] == ""
  {
    if fs == [] then []
    else if fs[|fs| - 1] == "" then DropTrailingEmpty(fs[..|fs| - 1])
    else fs
  }

  /** Ruby's s.split(c) for a single non-space character c. */
  function Split(s: string, c: char): seq<string> {
    DropTrailingEmpty(Fields(s, c))
  }

  /** The first occurrence of c in a + [c] + b, where a has no c, is at |a|. */
  lemma IndexOfAfterPrefix(a: string, b: string, c: char)
    requires c !in a
    ensures IndexOf(a + [c] + b, c) == |a|
  {
    if a != [] {
      assert (a + [c] + b)[1..] == a[1..] + [c] + b;
      IndexOfAfterPrefix(a[1..], b, c);
    }
  }

  /** The drop-first of a sequence built by prepending. */
  lemma TailOfCons<T>(h: T, t: seq<T>)
    ensures ([h] + t)[1..] == t
  {
  }

  /** A non-empty sequence is its first element followed by the rest. */
  lemma ConsOfTail<T>(s: seq<T>)
    requires |s| >= 1
    ensures s == [s[0]] + s[1..]
  {
  }

  /** A sequence is what comes before index i, the element at i, and what comes after. */
  lemma SplitAround<T>(s: seq<T>, i: nat)
    requires i < |s|
    ensures s == s[..i] + [s[i]] + s[i + 1..]
  {
  }

  /** One step of Fields where s holds c. */
  lemma FieldsUnfold(s: string, c: char)
    requires IndexOf(s, c) < |s|
    ensures Fields(s, c) == [s[..IndexOf(s, c)]] + Fields(s[IndexOf(s, c) + 1..], c)
  {
  }

  /** Joining a field in front of at least one more field puts c between them. */
  lemma JoinCons(h: string, t: seq<string>, c: char)
    requires |t| >= 1
    ensures Join([h] + t, c) == h + [c] + Join(t, c)
  {
    TailOfCons(h, t);
  }

  /** Cutting s into fields and joining them again gives s back. */
  lemma {:induction false} JoinFields(s: string, c: char)
    ensures Join(Fields(s, c), c) == s
    decreases |s|
  {
    var i := IndexOf(s, c);
    if i < |s| {
      var head := s[..i];
      var rest := s[i + 1..];
      var tail := Fields(rest, c);
      FieldsUnfold(s, c);
      JoinFields(rest, c);
      JoinCons(head, tail, c);
      SplitAround(s, i);
    }
  }

  /** Joining fields that hold no c and cutting the result again gives the fields back. */
  lemma {:induction false} FieldsJoin(fs: seq<string>, c: char)
    requires |fs| >= 1
    requires forall k | 0 <= k < |fs| :: c !in fs[k]
    ensures Fields(Join(fs, c), c) == fs
    decreases |fs|
  {
    if |fs| > 1 {
      var a := fs[0];
      var more := fs[1..];
      var rest := Join(more, c);
      var s := a + [c] + rest;
      ConsOfTail(fs);
      JoinCons(a, more, c);
      IndexOfAfterPrefix(a, rest, c);
      assert s[..|a|] == a;
      assert s[|a| + 1..] == rest;
      FieldsUnfold(s, c);
      FieldsJoin(more, c);
    }
  }

  /** All fields of s are empty exactly when s consists of separators only. */
  lemma {:induction false} FieldsAllEmpty(s: string, c: char)
    ensures AllEmpty(Fields(s, c)) <==> OnlyChar(s, c)
    decreases |s|
  {
    var i := IndexOf(s, c);
    var fs := Fields(s, c);
    if i == |s| {
      assert fs == [s];
      if s != [] {
        assert s[0] != c;
        assert fs[0] != "";
      }
    } else {
      var rest := s[i + 1..];
      FieldsAllEmpty(rest, c);
      var tail := Fields(rest, c);
      assert fs == [s[..i]] + tail;
      assert OnlyChar(s, c) ==> AllEmpty(fs) by {
        if OnlyChar(s, c) {
          assert s[0] == c;
          assert OnlyChar(rest, c) by {
            forall k | 0 <= k < |rest| ensures rest[k] == c {
              assert rest[k] == s[i + 1 + k];
            }
          }
          forall k | 0 <= k < |fs| ensures fs[k] == "" {
            if k > 0 {
              assert fs[k] == tail[k - 1];
            }
          }
        }
      }
      assert AllEmpty(fs) ==> OnlyChar(s, c) by {
        if AllEmpty(fs) {
          assert fs[0] == s[..i];
          assert i == 0;
          forall k | 0 <= k < |tail| ensures tail[k] == "" {
            assert tail[k] == fs[k + 1];
          }
          assert OnlyChar(rest, c);
          forall k | 0 <= k < |s| ensures s[k] == c {
            if k > 0 {
              assert s[k] == rest[k - 1];
            }
          }
        }
      }
    }
  }

  /** Dropping the trailing empty fields leaves more than k fields iff a field at k or later is non-empty. */
  lemma DropLength(fs: seq<string>, k: nat)
    requires k <= |fs|
    ensures |DropTrailingEmpty(fs)| > k <==> !AllEmpty(fs[k..])
  {
    var r := DropTrailingEmpty(fs);
    if |r| > k {
      assert fs[k..][|r| - 1 - k] == r[|r| - 1];
    }
    if !AllEmpty(fs[k..]) {
      var j :| 0 <= j < |fs[k..]| && fs[k..][j] != "";
      assert fs[k + j] != "";
    }
  }

  /** The first field of s is the text before the first c. */
  lemma FieldsHead(s: string, c: char)
    ensures Fields(s, c)[0] == s[..IndexOf(s, c)]
  {
  }

  /** Past the first c, the fields of s are the fields of the rest of s. */
  lemma FieldsTail(s: string, c: char)
    requires c in s
    ensures Fields(s, c)[1..] == Fields(s[IndexOf(s, c) + 1..], c)
  {
    var i := IndexOf(s, c);
    FieldsUnfold(s, c);
    TailOfCons(s[..i], Fields(s[i + 1..], c));
  }

  /** Split yields at least one element iff s is not made of separators only. */
  lemma SplitHasFirst(s: string, c: char)
    ensures |Split(s, c)| >= 1 <==> !OnlyChar(s, c)
    ensures |Split(s, c)| >= 1 ==> Split(s, c)[0] == s[..IndexOf(s, c)]
  {
    var fs := Fields(s, c);
    DropLength(fs, 0);
    assert fs[0..] == fs;
    FieldsAllEmpty(s, c);
    FieldsHead(s, c);
  }

  /** Split yields a second element iff something other than c follows the first c. */
  lemma SplitHasSecond(s: string, c: char)
    requires c in s
    ensures var rest := s[IndexOf(s, c) + 1..];
            && (|Split(s, c)| >= 2 <==> !OnlyChar(rest, c))
            && (|Split(s, c)| >= 2 ==> Split(s, c)[1] == rest[..IndexOf(rest, c)])
  {
    var rest := s[IndexOf(s, c) + 1..];
    var fs := Fields(s, c);
    DropLength(fs, 1);
    FieldsTail(s, c);
    FieldsAllEmpty(rest, c);
    FieldsHead(rest, c);
    assert fs[1] == fs[1..][0];
  }
}
