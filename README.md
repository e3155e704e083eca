# jQuery Tagger, modelled in Dafny

The jQuery Tagger plugin turns a text input into a tag editor. Applying it to
an element does the following. An element that is not a text input is skipped.
A text input hands its `id` and `name` to a new hidden input. The text input
itself is renamed to `id_<clock>` and `name_<clock>`, and an empty container
for tags is placed next to it. Pressing Enter in the text input appends one tag
holding the input's whole text and clears the input. Clicking a tag's close link
removes that tag. After either change, the hidden input's value is rebuilt by a
serialiser loop over the tag texts, in document order.

The model has four modules:

- `Serialization` (`serialization.dfy`): the serialiser as the left fold
  `Serialize` of `Step`, where `Step(acc, t)` appends `t` to `acc` and puts a
  comma before it only when `acc` is already non-empty. It also holds the
  serialiser loop `SerializeTags`, proved equal to `Serialize`, and `Join`, the
  plain comma-join, as an independent reference. The lemmas state exactly how
  the two differ: `Serialize(tags)` is `Join` of the tags after the leading run
  of empty ones, and the two agree exactly when there is at most one tag or the
  first tag is non-empty.
- `Splitting` (`splitting.dfy`): reading the hidden value back with a split on
  `,`, which turns `""` into `[""]`, as JavaScript's split does. It holds the
  round trips in both directions.
- `Tagger` (`tagger.dfy`): the `Element` class (the page's input element, whose
  `id`, `name` and `value` the plugin changes in place) and the `Tagger` class
  (one widget instance). A `Tagger` holds the hidden input's id, name and value
  and the sequence of tag texts. `Initialise` models the body of the `.each`
  callback. `KeyDown` models the keydown handler. `Remove` models the
  close-click handler, with the clicked tag given by its index. The object
  invariant `Valid()` says the hidden value is `Serialize(tags)`. It holds
  after initialisation, and `KeyDown` and `Remove` keep it.
- `TaggerUsage` (`usage.dfy`): client methods whose assertions follow one widget
  through key presses and a removal.

The model follows the code. In three places the code does less than a
description of the widget might suggest:

- Enter does not split the text on commas. It appends exactly one tag, and an
  empty input still produces an empty tag. After tags `x` and `a,b`, pressing
  Enter on the cleared input gives the hidden value `x,a,b,`
  (`TaggerUsage.UsageCommaAndEmptyText`).
- A value already in the text input is never turned into tags. `Initialise`
  leaves the input's `value` unchanged, and the tag sequence starts empty.
- The serialiser is not a plain comma-join. Leading empty tags disappear, and a
  later empty tag leaves a doubled or trailing comma.

The clock reading `new Date().getTime()` is a `nat` parameter `time`, and
`Decimal(time)` is its text. A missing `id` or `name` attribute is read as
jQuery 1.6 to 1.8 read it: `attr()` returns `undefined`, which string
concatenation renders as `undefined`. `AttrText` models that.

## Model

| member | source | states |
|---|---|---|
| `Serialization.Serialize` | jquery.tagger.js:80-83 | defines the hidden value as the left fold of `Step` from `""` over the tag texts in document order; the same loop is repeated at lines 100-103 |
| `Serialization.Step` | jquery.tagger.js:82 | one step of the accumulator gives a non-empty result exactly when the accumulator or the tag text is non-empty |
| `Serialization.SerializeTags` | jquery.tagger.js:80-83 | the loop that starts from `""` and extends the accumulator once per tag, in order, returns `Serialize(tags)` |
| `Serialization.SerializeIsJoinOfDropLeadingEmpty` | jquery.tagger.js:80-83 | the serialisation equals the plain comma-join of the tags left after dropping the leading empty ones |
| `Serialization.SerializeIsJoinIff` | jquery.tagger.js:80-83 | the serialisation equals the plain comma-join if and only if there is at most one tag or the first tag is non-empty |
| `Serialization.SerializeIsJoin` | jquery.tagger.js:80-83 | when no tag is empty, the serialisation is the plain comma-join |
| `Serialization.SerializeEmptyIff` | jquery.tagger.js:80-83 | the serialisation is `""` if and only if every tag is empty |
| `Serialization.SerializeLeadingEmpty` | jquery.tagger.js:80-83 | a leading empty tag contributes nothing to the serialisation |
| `Splitting.Split` | jquery.tagger.js:80-83 | a reader-side inverse with no counterpart in the source, which never splits: it models JavaScript's `split(',')` and exists to state the round trip; it gives at least one piece, and no piece contains a comma |
| `Splitting.JoinSplit` | jquery.tagger.js:80-83 | for the reader-side `Split`, which the source does not have: joining the pieces of a split with commas gives back the original string |
| `Splitting.SplitJoin` | jquery.tagger.js:80-83 | for the reader-side `Split`, which the source does not have: splitting the plain comma-join of a non-empty sequence of comma-free tags, empty ones included, gives back the tags |
| `Splitting.RoundTrip` | jquery.tagger.js:80-83 | if the tags are a non-empty sequence and each is non-empty and comma-free, splitting their serialisation gives back the tags |
| `Splitting.RoundTripDropsLeadingEmpty` | jquery.tagger.js:80-83 | for comma-free tags, provided some tag is non-empty, splitting the serialisation gives back the tags after the leading empty ones, with later empty tags as empty pieces |
| `Tagger.AttrText` | jquery.tagger.js:37-38 | the text an attribute value gives in string concatenation at lines 41 and 50-51: the value itself, or `undefined` when the attribute is missing (jQuery 1.6 to 1.8) |
| `Tagger.Decimal` | jquery.tagger.js:46-51 | the text of the clock reading is non-empty and made of decimal digits |
| `Tagger.DecimalInjective` | jquery.tagger.js:46-51 | different clock readings have different texts |
| `Tagger.Renamed` | jquery.tagger.js:50-51 | the visible input's new id or name never equals the original one, which the hidden input keeps |
| `Tagger.RenamedInjective` | jquery.tagger.js:46-51 | with the same original id or name, two different clock readings give two different new ids or names |
| `Tagger.RemoveAt` | jquery.tagger.js:94-97 | deleting the tag at position `i` leaves one tag fewer, keeps the tags before and after `i` in their order, and removes exactly that one occurrence from the multiset |
| `Tagger.Tagger.Valid` | jquery.tagger.js:85 | defines the widget invariant: the hidden input's value is `Serialize(tags)`; both handlers re-establish it, at lines 85 and 105, and lines 41-44 start it with `""` and no tags |
| `Tagger.Tagger.constructor` | jquery.tagger.js:41-44 | a new widget's hidden input has the given id and name and the value `""`, the container has no tags, and the invariant holds |
| `Tagger.Tagger.KeyDown` | jquery.tagger.js:58-89 | on key 13: the tags are the old tags plus one tag with the whole old input text, the input is `""`, and the invariant holds; from a valid state the hidden value is one `Step` on the old one; on any other key the tags, hidden value and input text are unchanged; nothing else changes |
| `Tagger.Tagger.Remove` | jquery.tagger.js:92-108 | the tags become `RemoveAt(old tags, i)`, the invariant holds, and the input is untouched |
| `Tagger.Initialise` | jquery.tagger.js:30-55 | on a non-text element: no widget and nothing changed; on a text input: a fresh widget with no tags and hidden value `""`, whose hidden input has the original id and name (`undefined` when missing; values with `"` or `&` are outside the model, see Left out); the input is renamed to the original plus `_` and the clock text; the input's text is kept and not parsed |

## Left out

- DOM plumbing is not modelled: creating elements, `.after` insertion, `.find('p')`, `.remove()` and `.val()`. Each becomes a field update of the two classes.
- HTML building is left out. Lines 66-69 paste a tag's text unescaped into the tag's markup. The model assumes each text is stored and read back unchanged. Real text containing `<` or `&` would be read back differently, or produce extra `<p>` elements for the serialiser to visit.
- Tagger.Initialise: line 41 pastes the original id and name unescaped into the hidden input's markup. The model assumes `hiddenId` and `hiddenName` equal the originals. That is false for values containing `"` or `&`: the id `a"b` gives the hidden input the id `a`, and `&amp;` comes back as `&`.
- Tagger.Initialise: for a missing `id` or `name`, the model follows jQuery 1.6 to 1.8, where `attr()` returns `undefined`. The hidden input then gets `undefined`, and the visible input gets `undefined_<time>`. jQuery 1.4 and 1.5 return the DOM property instead, which is `""` for a missing attribute. Under those versions the hidden input gets `""` and the visible input gets `_<time>`, which the model does not capture.
- Event binding is left out: `.bind('keydown')` and the delegated `.live('click')`. Events are method calls, and the clicked tag is its index in the tag sequence.
- `evt.preventDefault()` is left out, because the browser's default actions are outside the model. So is typing into the field, which the browser does. `Element.SetValue` stands in for it.
- Selector matching is abstracted. Whether an element matches `input[type="text"]` is given as its `ElementKind`.
- The clock is a parameter. `new Date().getTime()` becomes `time`, and two widgets created within the same millisecond get the same suffix. Only a non-negative reading is modelled, in plain decimal.
- The options merge at lines 22-27 has no effect and is left out. So are the commented-out stubs at lines 114-120.
- Several widgets at once are not modelled. Each `.each` iteration creates its own objects, so they share no state.
