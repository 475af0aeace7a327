/** Shared vocabulary: calendar values, optional values, the service errors and
    an order-preserving filter on lists. */
module Common {

  /** A LocalDate, as a day number. */
  type Day = int

  /** A LocalTime, as minutes since midnight. */
  type Minute = int

  /** A Java reference that may be null. */
  datatype Option<T> = None | Some(value: T)

  /** The exceptions the services throw, one constructor per distinct failure. */
  datatype Error =
    | NotFound          // ResourceNotFoundException
    | AlreadyEnrolled   // "Student is already enrolled in this course"
    | AtCapacity        // "Course is (already) at maximum capacity"
    | NotEnrolled       // "Student is not enrolled in this course"
    | NoParticipants    // "Course has no participants to remove"
    | InvalidRange      // end date or end time not after the start
    | InvalidCount      // current participants exceed the maximum
    | TimeConflict      // overlapping active slot on the same weekday
    | NullColumn        // a NOT NULL column written as null: the INSERT or flush fails

  /** The outcome of a service call: its return value or the exception it throws. */
  datatype Result<T> = Ok(value: T) | Err(error: Error)

  /** The elements of `s` that satisfy `p`, in their order in `s` (a stream `filter`). */
  function Filter<T>(s: seq<T>, p: T -> bool): (r: seq<T>)
    ensures |r| <= |s|
  {
    if s == [] then []
    else (if p(s[0]) then [s[0]] else []) + Filter(s[1..], p)
  }

  /** The filter keeps exactly the elements that pass. */
  lemma {:induction false} FilterMembers<T>(s: seq<T>, p: T -> bool)
    ensures forall i :: 0 <= i < |Filter(s, p)| ==> Filter(s, p)[i] in s && p(Filter(s, p)[i])
    ensures forall i :: 0 <= i < |s| && p(s[i]) ==> s[i] in Filter(s, p)
  {
    if s != [] {
      FilterMembers(s[1..], p);
      var head := if p(s[0]) then [s[0]] else [];
      var rest := Filter(s[1..], p);
      assert Filter(s, p) == head + rest;
      forall i | 0 <= i < |Filter(s, p)|
        ensures Filter(s, p)[i] in s && p(Filter(s, p)[i])
      {
        if i >= |head| {
          assert Filter(s, p)[i] == rest[i - |head|];
          assert rest[i - |head|] in s[1..];
        }
      }
      forall i | 0 <= i < |s| && p(s[i])
        ensures s[i] in Filter(s, p)
      {
        if i > 0 {
          assert s[i] == s[1..][i - 1];
          assert s[i] in rest;
        }
      }
    }
  }

  /** Filtering commutes with concatenation, so the filter keeps the stored order. */
  lemma {:induction false} FilterConcat<T>(a: seq<T>, b: seq<T>, p: T -> bool)
    ensures Filter(a + b, p) == Filter(a, p) + Filter(b, p)
  {
    if a == [] {
      assert a + b == b;
    } else {
      var ab := a + b;
      var head := if p(a[0]) then [a[0]] else [];
      assert ab[0] == a[0];
      assert ab[1..] == a[1..] + b;
      FilterConcat(a[1..], b, p);
      assert Filter(ab, p) == head + Filter(ab[1..], p);
      assert Filter(a, p) == head + Filter(a[1..], p);
    }
  }

  /** Filtering by a weaker predicate first changes nothing. */
  lemma {:induction false} FilterFilter<T>(s: seq<T>, q: T -> bool, p: T -> bool)
    requires forall x :: p(x) ==> q(x)
    ensures Filter(Filter(s, q), p) == Filter(s, p)
  {
    if s != [] {
      FilterFilter(s[1..], q, p);
      var head := if q(s[0]) then [s[0]] else [];
      FilterConcat(head, Filter(s[1..], q), p);
      if q(s[0]) {
        assert [s[0]][1..] == [];
      }
    }
  }

  /** Filtering a one-element list. */
  lemma FilterSingleton<T>(x: T, p: T -> bool)
    ensures Filter([x], p) == if p(x) then [x] else []
  {
    assert [x][1..] == [];
  }

  /** Filtering a list in which every element passes returns the list itself. */
  lemma {:induction false} FilterAll<T>(s: seq<T>, p: T -> bool)
    requires forall i :: 0 <= i < |s| ==> p(s[i])
    ensures Filter(s, p) == s
  {
    if s != [] {
      FilterAll(s[1..], p);
    }
  }

  /** The first position of `s` whose element satisfies `p` (a `findFirst`). */
  function FirstIndex<T>(s: seq<T>, p: T -> bool): (r: Option<nat>)
    ensures r.Some? ==> r.value < |s| && p(s[r.value])
    ensures r.None? <==> forall j :: 0 <= j < |s| ==> !p(s[j])
  {
    if s == [] then None
    else if p(s[0]) then Some(0)
    else match FirstIndex(s[1..], p)
      case None => None
      case Some(j) => Some(j + 1)
  }

  /** The position found is the first one that satisfies `p`. */
  lemma {:induction false} FirstIndexIsFirst<T>(s: seq<T>, p: T -> bool)
    requires FirstIndex(s, p).Some?
    ensures forall j :: 0 <= j < FirstIndex(s, p).value ==> !p(s[j])
  {
    if !p(s[0]) {
      FirstIndexIsFirst(s[1..], p);
      forall j | 0 < j < FirstIndex(s, p).value ensures !p(s[j]) {
        assert s[j] == s[1..][j - 1];
      }
    }
  }

  /** No two elements of `s` share a key (a unique constraint or a primary key). */
  ghost predicate UniqueKeys<T, K>(s: seq<T>, key: T -> K) {
    forall i, j :: 0 <= i < j < |s| ==> key(s[i]) != key(s[j])
  }

  /** Under unique keys, the element with a given key is the first one with it. */
  lemma UniqueKeyPosition<T, K>(s: seq<T>, key: T -> K, i: nat, j: nat)
    requires UniqueKeys(s, key)
    requires i < |s| && j < |s| && key(s[i]) == key(s[j])
    ensures i == j
  {
  }

  /** Dropping elements keeps keys unique. */
  lemma {:induction false} FilterUniqueKeys<T, K>(s: seq<T>, p: T -> bool, key: T -> K)
    requires UniqueKeys(s, key)
    ensures UniqueKeys(Filter(s, p), key)
  {
    if s != [] {
      var rest := Filter(s[1..], p);
      assert UniqueKeys(s[1..], key) by {
        forall i, j | 0 <= i < j < |s[1..]| ensures key(s[1..][i]) != key(s[1..][j]) {
          assert s[1..][i] == s[i + 1] && s[1..][j] == s[j + 1];
        }
      }
      FilterUniqueKeys(s[1..], p, key);
      FilterMembers(s[1..], p);
      if p(s[0]) {
        var r := [s[0]] + rest;
        forall i, j | 0 <= i < j < |r| ensures key(r[i]) != key(r[j]) {
          if i == 0 {
            assert r[j] == rest[j - 1];
            assert rest[j - 1] in s[1..];
            var k :| 0 <= k < |s[1..]| && s[1..][k] == rest[j - 1];
            assert s[k + 1] == r[j];
          } else {
            assert r[i] == rest[i - 1] && r[j] == rest[j - 1];
          }
        }
      }
    }
  }

  /** Removing the element at one position keeps keys unique. */
  lemma RemoveAtUniqueKeys<T, K>(s: seq<T>, i: nat, key: T -> K)
    requires UniqueKeys(s, key) && i < |s|
    ensures UniqueKeys(s[..i] + s[i + 1..], key)
  {
    var r := s[..i] + s[i + 1..];
    forall a, b | 0 <= a < b < |r| ensures key(r[a]) != key(r[b]) {
      var a' := if a < i then a else a + 1;
      var b' := if b < i then b else b + 1;
      assert r[a] == s[a'] && r[b] == s[b'];
    }
  }

  /** Appending an element whose key is new keeps keys unique. */
  lemma AppendUniqueKeys<T, K>(s: seq<T>, x: T, key: T -> K)
    requires UniqueKeys(s, key)
    requires forall i :: 0 <= i < |s| ==> key(s[i]) != key(x)
    ensures UniqueKeys(s + [x], key)
  {
    var r := s + [x];
    forall a, b | 0 <= a < b < |r| ensures key(r[a]) != key(r[b]) {
      assert r[a] == s[a];
      if b < |s| {
        assert r[b] == s[b];
      } else {
        assert r[b] == x;
      }
    }
  }

  /** Replacing an element by one with the same key keeps keys unique. */
  lemma UpdateUniqueKeys<T, K>(s: seq<T>, i: nat, x: T, key: T -> K)
    requires UniqueKeys(s, key) && i < |s| && key(x) == key(s[i])
    ensures UniqueKeys(s[i := x], key)
  {
    var r := s[i := x];
    forall a, b | 0 <= a < b < |r| ensures key(r[a]) != key(r[b]) {
      assert key(r[a]) == key(s[a]) && key(r[b]) == key(s[b]);
    }
  }

  /** Overwriting the value of a present key keeps the key set. */
  lemma OverwriteKeepsKeys<K, V>(m: map<K, V>, k: K, v: V)
    requires k in m
    ensures m[k := v].Keys == m.Keys
  {
  }
}
