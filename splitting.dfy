/** Reading the hidden value back: splitting on ',' as a string split does, and
    the round trips between that split and the serialiser. */
module Splitting {
  import opened Serialization

  /** No tag contains a comma. */
  predicate CommaFree(tags: seq<string>)
  {
    forall j :: 0 <= j < |tags| ==> ',' !in tags[j]
  }

  /** The pieces of `s` between commas, in order; the empty string is one empty
      piece, and every comma separates two pieces. */
  function Split(s: string): (r: seq<string>)
    ensures |r| >= 1
    ensures CommaFree(r)
  {
    if s == [] then [""]
    else if s[0] == ',' then [""] + Split(s[1..])
    else
      var rest := Split(s[1..]);
      [[s[0]] + rest[0]] + rest[1..]
  }

  /** Joining the pieces with commas gives back the string. */
  lemma {:induction false} JoinSplit(s: string)
    ensures Join(Split(s)) == s
  {
    if s != [] {
      var rest := Split(s[1..]);
      JoinSplit(s[1..]);
      if s[0] == ',' {
        assert ([""] + rest)[1..] == rest;
      } else if |rest| > 1 {
        assert ([[s[0]] + rest[0]] + rest[1..])[1..] == rest[1..];
      }
    }
  }

  lemma {:induction false} SplitCommaFree(t: string)
    requires ',' !in t
    ensures Split(t) == [t]
  {
    if t != [] {
      assert t[0] in t;
      SplitCommaFree(t[1..]);
      assert [t[0]] + t[1..] == t;
    }
  }

  lemma {:induction false} SplitAfterCommaFree(t: string, u: string)
    requires ',' !in t
    ensures Split(t + "," + u) == [t] + Split(u)
  {
    if t == [] {
      assert t + "," + u == [','] + u;
      assert ([','] + u)[1..] == u;
    } else {
      assert (t + "," + u)[1..] == t[1..] + "," + u;
      SplitAfterCommaFree(t[1..], u);
      assert [t[0]] + t[1..] == t;
    }
  }

  /** Splitting the join of comma-free tags recovers them; empty tags included. */
  lemma {:induction false} SplitJoin(tags: seq<string>)
    requires tags != [] && CommaFree(tags)
    ensures Split(Join(tags)) == tags
  {
    if |tags| == 1 {
      SplitCommaFree(tags[0]);
    } else {
      assert CommaFree(tags[1..]) by {
        forall j | 0 <= j < |tags| - 1 ensures ',' !in tags[1..][j] {
          assert tags[1..][j] == tags[j + 1];
        }
      }
      SplitJoin(tags[1..]);
      SplitAfterCommaFree(tags[0], Join(tags[1..]));
    }
  }

  /** The hidden value round-trips: when every tag is non-empty and holds no
      comma, splitting the serialisation on ',' gives back the tags. */
  lemma RoundTrip(tags: seq<string>)
    requires tags != [] && AllNonEmpty(tags) && CommaFree(tags)
    ensures Split(Serialize(tags)) == tags
  {
    SerializeIsJoin(tags);
    SplitJoin(tags);
  }

  /** With empty tags allowed, splitting recovers the tags after the leading
      empty ones; later empty tags come back as empty pieces. */
  lemma {:induction false} RoundTripDropsLeadingEmpty(tags: seq<string>)
    requires DropLeadingEmpty(tags) != [] && CommaFree(tags)
    ensures Split(Serialize(tags)) == DropLeadingEmpty(tags)
  {
    var q := DropLeadingEmpty(tags);
    SerializeIsJoinOfDropLeadingEmpty(tags);
    DropLeadingEmptyIsSuffix(tags);
    assert CommaFree(q) by {
      forall j | 0 <= j < |q| ensures ',' !in q[j] {
        assert q[j] == tags[|tags| - |q| + j];
      }
    }
    SplitJoin(q);
  }
}
