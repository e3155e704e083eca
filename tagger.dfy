/** One tagger widget: the text input it is applied to, the hidden input that
    takes over the input's id and name, and the tags shown in its container.
    Events are method calls; the clicked tag is identified by its position. */
module Tagger {
  import opened Serialization

  datatype Option<T> = None | Some(value: T)

  /** Whether an element matches the selector `input[type="text"]`. */
  datatype ElementKind = TextInput | OtherElement

  /** The key code of Enter/Return. */
  const EnterKey: int := 13

  /** An attribute value as string concatenation renders it. A missing
      attribute reads as `undefined`, as `attr()` returns it in jQuery 1.6 to
      1.8; jQuery 1.4 and 1.5 give `""` instead. */
  function AttrText(a: Option<string>): string
  {
    match a
    case None => "undefined"
    case Some(s) => s
  }

  function Digit(d: nat): (c: char)
    requires d < 10
    ensures '0' <= c <= '9'
  {
    (('0' as int) + d) as char
  }

  /** The decimal rendering of a clock reading, as number-to-string conversion
      gives it for a non-negative integer. */
  function Decimal(n: nat): (r: string)
    ensures |r| >= 1
    ensures forall k :: 0 <= k < |r| ==> '0' <= r[k] <= '9'
  {
    if n < 10 then [Digit(n)] else Decimal(n / 10) + [Digit(n % 10)]
  }

  /** Distinct clock readings have distinct decimal renderings. */
  lemma {:induction false} DecimalInjective(m: nat, n: nat)
    ensures Decimal(m) == Decimal(n) ==> m == n
  {
    if Decimal(m) == Decimal(n) {
      if m >= 10 && n >= 10 {
        var dm, dn := Decimal(m), Decimal(n);
        assert dm[|dm| - 1] == Digit(m % 10) && dn[|dn| - 1] == Digit(n % 10);
        assert dm[..|dm| - 1] == Decimal(m / 10) && dn[..|dn| - 1] == Decimal(n / 10);
        DecimalInjective(m / 10, n / 10);
      }
    }
  }

  /** The id or name the visible input is given at initialisation: the
      original one, an underscore and the clock reading. It never equals the
      original, which the hidden input keeps. */
  function Renamed(a: Option<string>, time: nat): (r: string)
    ensures r != AttrText(a)
  {
    assert |AttrText(a) + "_" + Decimal(time)| > |AttrText(a)|;
    AttrText(a) + "_" + Decimal(time)
  }

  /** Two initialisations at different clock readings rename an input with the
      same id (or name) differently. */
  lemma RenamedInjective(a: Option<string>, t1: nat, t2: nat)
    ensures Renamed(a, t1) == Renamed(a, t2) ==> t1 == t2
  {
    var p := AttrText(a) + "_";
    if Renamed(a, t1) == Renamed(a, t2) {
      assert Renamed(a, t1)[|p|..] == Decimal(t1);
      assert Renamed(a, t2)[|p|..] == Decimal(t2);
      DecimalInjective(t1, t2);
    }
  }

  /** The tags left after deleting the one at position i: one fewer, and the
      others keep their relative order. */
  function RemoveAt(tags: seq<string>, i: nat): (r: seq<string>)
    requires i < |tags|
    ensures |r| == |tags| - 1
    ensures forall j :: 0 <= j < i ==> r[j] == tags[j]
    ensures forall j :: i <= j < |r| ==> r[j] == tags[j + 1]
    ensures multiset(r) + multiset{tags[i]} == multiset(tags)
  {
    assert tags == tags[..i] + [tags[i]] + tags[i + 1..];
    tags[..i] + tags[i + 1..]
  }

  /** A page element the widget may be applied to. */
  class Element {
    const kind: ElementKind
    var id: Option<string>
    var name: Option<string>
    var value: string

    constructor (kind: ElementKind, id: Option<string>, name: Option<string>, value: string)
      ensures this.kind == kind && this.id == id && this.name == name && this.value == value
    {
      this.kind := kind;
      this.id := id;
      this.name := name;
      this.value := value;
    }

    /** The user edits the field's text (the browser does this, not the widget). */
    method SetValue(v: string)
      modifies this`value
      ensures value == v
    {
      value := v;
    }
  }

  /** The state one initialisation creates for one text input. */
  class Tagger {
    /** The visible text input, renamed at initialisation. */
    const textInput: Element
    /** The hidden input's id and name: those the text input had originally. */
    const hiddenId: string
    const hiddenName: string
    var hiddenValue: string
    /** The texts of the tags in the container, in document order. */
    var tags: seq<string>

    /** The hidden input always holds the serialisation of the tags. */
    predicate Valid()
      reads this
    {
      hiddenValue == Serialize(tags)
    }

    constructor (input: Element, id: string, name: string)
      ensures textInput == input && hiddenId == id && hiddenName == name
      ensures tags == [] && hiddenValue == "" && Valid()
    {
      textInput := input;
      hiddenId := id;
      hiddenName := name;
      hiddenValue := "";
      tags := [];
    }

    /** The keydown handler. Enter appends one tag holding the whole input
        text (empty or not, commas and all), clears the input and
        re-serialises; any other key changes nothing. */
    method KeyDown(keyCode: int)
      modifies this`tags, this`hiddenValue, textInput`value
      ensures keyCode == EnterKey ==>
                tags == old(tags) + [old(textInput.value)] && textInput.value == "" && Valid()
      ensures keyCode == EnterKey && old(Valid()) ==>
                hiddenValue == Step(old(hiddenValue), old(textInput.value))
      ensures keyCode != EnterKey ==>
                tags == old(tags) && hiddenValue == old(hiddenValue) &&
                textInput.value == old(textInput.value)
    {
      if keyCode == EnterKey {
        var tagValue := textInput.value;
        tags := tags + [tagValue];
        textInput.value := "";
        hiddenValue := SerializeTags(tags);
      }
    }

    /** The close-click handler on the tag at position i: removes that tag and
        re-serialises. */
    method Remove(i: nat)
      requires i < |tags|
      modifies this`tags, this`hiddenValue
      ensures tags == RemoveAt(old(tags), i) && Valid()
    {
      tags := tags[..i] + tags[i + 1..];
      hiddenValue := SerializeTags(tags);
    }
  }

  /** Applying the widget to one matched element. Anything but a text input is
      skipped untouched. A text input hands its id and name to a new hidden
      input, is renamed with the clock reading, keeps its current text (which
      is not turned into tags), and starts with no tags. */
  method Initialise(item: Element, time: nat) returns (w: Tagger?)
    modifies item`id, item`name
    ensures item.kind != TextInput ==>
              w == null && item.id == old(item.id) && item.name == old(item.name)
    ensures item.kind == TextInput ==>
              w != null && fresh(w) && w.textInput == item &&
              w.hiddenId == AttrText(old(item.id)) && w.hiddenName == AttrText(old(item.name)) &&
              item.id == Some(Renamed(old(item.id), time)) &&
              item.name == Some(Renamed(old(item.name), time)) &&
              w.tags == [] && w.hiddenValue == "" && w.Valid()
  {
    if item.kind != TextInput {
      return null;
    }
    var id, name := AttrText(item.id), AttrText(item.name);
    w := new Tagger(item, id, name);
    item.id := Some(Renamed(item.id, time));
    item.name := Some(Renamed(item.name, time));
  }
}
