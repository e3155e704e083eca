/** The serialiser that both event handlers of the tagger run over the texts of
    the tags in the container, in document order, to produce the hidden input's
    value; and the plain comma-join it is compared with. */
module Serialization {

  /** One iteration of the serialiser: append `t` to the accumulator, preceded by
      a comma only when the accumulator is already non-empty. The test is on the
      accumulator, not on `t`, so an empty tag after a non-empty one still adds
      a comma, and an empty tag at the front adds nothing. */
  function Step(acc: string, t: string): (r: string)
    ensures r != "" <==> acc != "" || t != ""
  {
    acc + (if acc != "" then "," + t else t)
  }

  /** The hidden input's value for a given sequence of tag texts: the left fold of
      Step from the empty string over the tags in order. */
  function Serialize(tags: seq<string>): string
  {
    if tags == [] then "" else Step(Serialize(tags[..|tags| - 1]), tags[|tags| - 1])
  }

  /** The plain comma-join: every tag, empty or not, separated by one comma. */
  function Join(tags: seq<string>): string
  {
    if |tags| == 0 then ""
    else if |tags| == 1 then tags[0]
    else tags[0] + "," + Join(tags[1..])
  }

  /** The tags after the leading run of empty ones. */
  function DropLeadingEmpty(tags: seq<string>): (r: seq<string>)
    ensures |r| <= |tags|
    ensures r == [] || r[0] != ""
  {
    if tags == [] || tags[0] != "" then tags else DropLeadingEmpty(tags[1..])
  }

  /** What DropLeadingEmpty keeps is a suffix of the tags, and everything
      before that suffix is empty. */
  lemma {:induction false} DropLeadingEmptyIsSuffix(tags: seq<string>)
    ensures DropLeadingEmpty(tags) == tags[|tags| - |DropLeadingEmpty(tags)|..]
    ensures forall j :: 0 <= j < |tags| - |DropLeadingEmpty(tags)| ==> tags[j] == ""
  {
    if tags != [] && tags[0] == "" {
      DropLeadingEmptyIsSuffix(tags[1..]);
      assert tags[1..][|tags| - 1 - |DropLeadingEmpty(tags)|..] == tags[|tags| - |DropLeadingEmpty(tags)|..];
      forall j | 1 <= j < |tags| - |DropLeadingEmpty(tags)| ensures tags[j] == "" {
        assert tags[j] == tags[1..][j - 1];
      }
    }
  }

  predicate AllNonEmpty(tags: seq<string>)
  {
    forall j :: 0 <= j < |tags| ==> tags[j] != ""
  }

  /** The serialiser loop as the handlers run it: an accumulator that starts
      empty and is extended once per tag, in order. */
  method SerializeTags(tags: seq<string>) returns (value: string)
    ensures value == Serialize(tags)
  {
    value := "";
    var i := 0;
    while i < |tags|
      invariant 0 <= i <= |tags|
      invariant value == Serialize(tags[..i])
    {
      assert tags[..i + 1][..i] == tags[..i];
      value := value + (if value != "" then "," + tags[i] else tags[i]);
      i := i + 1;
    }
    assert tags[..|tags|] == tags;
  }

  /** Appending a tag to a non-empty sequence appends a comma and the tag to its join. */
  lemma {:induction false} JoinAppend(tags: seq<string>, t: string)
    requires tags != []
    ensures Join(tags + [t]) == Join(tags) + "," + t
  {
    if |tags| > 1 {
      assert (tags + [t])[1..] == tags[1..] + [t];
      JoinAppend(tags[1..], t);
    }
  }

  /** How DropLeadingEmpty reacts to a tag appended at the end. */
  lemma {:induction false} DropLeadingEmptyAppend(tags: seq<string>, t: string)
    ensures DropLeadingEmpty(tags) == [] ==>
              DropLeadingEmpty(tags + [t]) == (if t == "" then [] else [t])
    ensures DropLeadingEmpty(tags) != [] ==>
              DropLeadingEmpty(tags + [t]) == DropLeadingEmpty(tags) + [t]
  {
    if tags == [] {
      assert [] + [t] == [t];
      assert [t][1..] == [];
    } else if tags[0] == "" {
      assert (tags + [t])[1..] == tags[1..] + [t];
      assert DropLeadingEmpty(tags + [t]) == DropLeadingEmpty(tags[1..] + [t]);
      DropLeadingEmptyAppend(tags[1..], t);
    } else {
      assert (tags + [t])[0] == tags[0];
    }
  }

  /** The serialiser is exactly the plain comma-join of the tags that remain once
      the leading empty tags are dropped: leading empty tags vanish, and every
      later tag, empty or not, is preceded by a comma. */
  lemma {:induction false} SerializeIsJoinOfDropLeadingEmpty(tags: seq<string>)
    ensures Serialize(tags) == Join(DropLeadingEmpty(tags))
  {
    if tags != [] {
      var p, t := tags[..|tags| - 1], tags[|tags| - 1];
      assert tags == p + [t];
      SerializeIsJoinOfDropLeadingEmpty(p);
      DropLeadingEmptyAppend(p, t);
      var q := DropLeadingEmpty(p);
      if q != [] {
        JoinAppend(q, t);
      }
    }
  }

  /** The hidden value is empty exactly when every tag is empty. */
  lemma {:induction false} SerializeEmptyIff(tags: seq<string>)
    ensures Serialize(tags) == "" <==> forall j :: 0 <= j < |tags| ==> tags[j] == ""
  {
    SerializeIsJoinOfDropLeadingEmpty(tags);
    DropLeadingEmptyIsSuffix(tags);
    var q := DropLeadingEmpty(tags);
    if q != [] {
      assert tags[|tags| - |q|] == q[0];
    }
  }

  /** A leading empty tag contributes nothing to the serialisation. */
  lemma SerializeLeadingEmpty(tags: seq<string>)
    ensures Serialize([""] + tags) == Serialize(tags)
  {
    assert ([""] + tags)[1..] == tags;
    SerializeIsJoinOfDropLeadingEmpty([""] + tags);
    SerializeIsJoinOfDropLeadingEmpty(tags);
  }

  /** Dropping leading empty tags never lengthens the join. */
  lemma {:induction false} JoinDropLeadingEmptyNotLonger(tags: seq<string>)
    ensures |Join(DropLeadingEmpty(tags))| <= |Join(tags)|
  {
    if tags != [] && tags[0] == "" && |tags| > 1 {
      JoinDropLeadingEmptyNotLonger(tags[1..]);
    }
  }

  /** The serialiser agrees with the plain comma-join exactly when there is at
      most one tag or the first tag is non-empty. */
  lemma {:induction false} SerializeIsJoinIff(tags: seq<string>)
    ensures Serialize(tags) == Join(tags) <==> |tags| <= 1 || tags[0] != ""
  {
    SerializeIsJoinOfDropLeadingEmpty(tags);
    if |tags| > 1 && tags[0] == "" {
      JoinDropLeadingEmptyNotLonger(tags[1..]);
      assert |Join(tags)| == 1 + |Join(tags[1..])|;
    }
  }

  /** When no tag is empty, the serialiser is the plain comma-join. */
  lemma SerializeIsJoin(tags: seq<string>)
    requires AllNonEmpty(tags)
    ensures Serialize(tags) == Join(tags)
  {
    SerializeIsJoinIff(tags);
  }
}
