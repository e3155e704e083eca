/** A client of the widget: what a page sees when it uses one tagger. */
module TaggerUsage {
  import opened Tagger
  import opened Serialization

  /** Initialising a text input, pressing a key other than Enter, then Enter:
      only Enter turns the input's text into a tag. */
  method UsageEnter(time: nat)
  {
    var input := new Element(TextInput, Some("tags"), Some("tags"), "x");
    var w := Initialise(input, time);
    assert w != null && w.hiddenId == "tags" && input.value == "x";
    w.KeyDown(65);
    assert w.tags == [] && input.value == "x";
    w.KeyDown(EnterKey);
    assert w.tags == ["x"] && input.value == "" && w.hiddenValue == "x";
  }

  /** Enter on a text with a comma adds one tag holding the comma; Enter on
      the cleared input adds an empty tag and a trailing comma. */
  method UsageCommaAndEmptyText(w: Tagger)
    requires w.tags == ["x"] && w.Valid()
    modifies w, w.textInput
  {
    assert w.hiddenValue == "x" by { assert ["x"][..0] == []; }
    w.textInput.SetValue("a,b");
    w.KeyDown(EnterKey);
    assert w.tags == ["x", "a,b"] && w.hiddenValue == "x,a,b";
    w.KeyDown(EnterKey);
    assert w.tags == ["x", "a,b", ""] && w.hiddenValue == "x,a,b,";
  }

  /** Removing the first of those tags re-serialises the rest, trailing comma
      included. */
  method UsageRemove(w: Tagger)
    requires w.tags == ["x", "a,b", ""]
    modifies w, w.textInput
  {
    w.Remove(0);
    assert w.tags == ["a,b", ""];
    assert Serialize(["a,b"]) == "a,b" by { assert ["a,b"][..0] == []; }
    assert ["a,b", ""][..1] == ["a,b"];
    assert w.hiddenValue == "a,b,";
  }
}
