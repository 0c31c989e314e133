/** The emoji-art document value of EmojiArt/EmojiArt.swift: an ordered list
    of placed emoji, a background and a private id counter, with the mutating
    intents addEmoji, removeEmoji and setBackground. */
module EmojiArtModel {
  import opened Foundation

  /** `Emoji.Position`: an integer offset from the centre of the document. */
  datatype Position = Position(x: int, y: int)

  /** `Position.zero` */
  const Zero: Position := Position(0, 0)

  /** `EmojiArt.Emoji`: a glyph placed at a position with a font size and an id. */
  datatype Emoji = Emoji(text: string, position: Position, size: int, id: int)

  /** The document background, as the document layer uses it. */
  datatype Background = Blank | Url(url: URL) | ImageData(data: seq<byte>) {
    /** `background.url`: the URL of a url background, nil otherwise. */
    function UrlOf(): (r: Option<URL>)
      ensures r.Some? <==> Url?
      ensures r.Some? ==> r.value == url
    {
      match this
      case Url(u) => Some(u)
      case _ => None
    }
  }

  /** The whole struct as a value: what the document captures before an
      undoable change and assigns back when that change is undone. */
  datatype ArtValue = ArtValue(emojis: seq<Emoji>, background: Background, emojiID: int)

  /** The initial value `EmojiArt()`. */
  const Empty: ArtValue := ArtValue([], Blank, 0)

  /** Ids strictly increase along `emojis` and all lie below the counter, so
      they are unique and the next id handed out is fresh. */
  ghost predicate IdsFresh(emojis: seq<Emoji>, next: int) {
    && (forall i, j :: 0 <= i < j < |emojis| ==> emojis[i].id < emojis[j].id)
    && (forall i :: 0 <= i < |emojis| ==> emojis[i].id < next)
  }

  ghost predicate Wf(v: ArtValue) {
    IdsFresh(v.emojis, v.emojiID)
  }

  lemma IdsFreshImpliesUnique(emojis: seq<Emoji>, next: int, i: nat, j: nat)
    requires IdsFresh(emojis, next)
    requires i < |emojis| && j < |emojis| && i != j
    ensures emojis[i].id != emojis[j].id
  {
    if i < j {
      assert emojis[i].id < emojis[j].id;
    } else {
      assert emojis[j].id < emojis[i].id;
    }
  }

  /** `addEmoji(_:at:size:)` on the value. */
  function WithEmojiAdded(v: ArtValue, text: string, position: Position, size: int): (r: ArtValue)
    ensures |r.emojis| == |v.emojis| + 1 && r.emojis[..|v.emojis|] == v.emojis
    ensures r.emojis[|v.emojis|] == Emoji(text, position, size, v.emojiID)
    ensures r.emojiID == v.emojiID + 1 && r.emojiID > v.emojiID
    ensures r.background == v.background
    ensures Wf(v) ==> Wf(r)
  {
    var r := ArtValue(v.emojis + [Emoji(text, position, size, v.emojiID)], v.background, v.emojiID + 1);
    assert r.emojis[..|v.emojis|] == v.emojis;
    r
  }

  /** `removeEmoji(_:)` on the value: the argument is ignored and the first
      emoji is dropped; `remove(at: 0)` traps on an empty list. */
  function WithFirstEmojiRemoved(v: ArtValue, text: string): (r: ArtValue)
    requires |v.emojis| > 0
    ensures |r.emojis| == |v.emojis| - 1
    ensures forall i :: 0 <= i < |r.emojis| ==> r.emojis[i] == v.emojis[i + 1]
    ensures r.emojiID == v.emojiID && r.background == v.background
    ensures Wf(v) ==> Wf(r)
  {
    ArtValue(v.emojis[1..], v.background, v.emojiID)
  }

  /** `setBackground(_:)` on the value. */
  function WithBackground(v: ArtValue, background: Background): (r: ArtValue)
    ensures r.background == background
    ensures r.emojis == v.emojis && r.emojiID == v.emojiID
    ensures Wf(v) <==> Wf(r)
  {
    ArtValue(v.emojis, background, v.emojiID)
  }

  /** The three intents of the struct, as the document invokes them. */
  datatype Intent = Add(text: string, position: Position, size: int)
                  | Remove(text: string)
                  | SetBg(background: Background)

  /** Whether the intent can run without trapping on `v`. */
  predicate Enabled(v: ArtValue, intent: Intent) {
    intent.Remove? ==> |v.emojis| > 0
  }

  function Apply(v: ArtValue, intent: Intent): (r: ArtValue)
    requires Enabled(v, intent)
    ensures Wf(v) ==> Wf(r)
  {
    match intent
    case Add(t, p, s) => WithEmojiAdded(v, t, p, s)
    case Remove(t) => WithFirstEmojiRemoved(v, t)
    case SetBg(b) => WithBackground(v, b)
  }

  /** Applies a whole run of intents in order; None when one of them traps. */
  function Run(v: ArtValue, intents: seq<Intent>): (r: Option<ArtValue>)
    decreases |intents|
  {
    if intents == [] then Some(v)
    else if !Enabled(v, intents[0]) then None
    else Run(Apply(v, intents[0]), intents[1..])
  }

  /** Over any run of intents the counter only grows, the invariant is kept,
      and every emoji present at the end either was present at the start or
      carries an id at or above the starting counter. */
  lemma {:induction false} RunKeepsIdsFresh(v: ArtValue, intents: seq<Intent>)
    requires Wf(v)
    requires Run(v, intents).Some?
    ensures var r := Run(v, intents).value;
      && Wf(r)
      && r.emojiID >= v.emojiID
      && forall e :: e in r.emojis && e !in v.emojis ==> v.emojiID <= e.id < r.emojiID
    decreases |intents|
  {
    if intents != [] {
      var w := Apply(v, intents[0]);
      RunKeepsIdsFresh(w, intents[1..]);
      var r := Run(v, intents).value;
      assert r == Run(w, intents[1..]).value;
      forall e | e in r.emojis && e !in v.emojis
        ensures v.emojiID <= e.id < r.emojiID
      {
        if e in w.emojis {
          match intents[0]
          case Add(t, p, s) =>
            assert w.emojis == v.emojis + [e];
          case _ =>
        }
      }
    }
  }

  /** The struct itself, updated in place by its mutating methods. It stands
      alone: the document holds the struct as a value (`ArtValue`), as a Swift
      struct stored in a property is copied on assignment, and its undo
      restores that value directly. */
  class EmojiArt {
    var emojis: seq<Emoji>
    var background: Background
    var emojiID: int

    /** The current value of the struct. */
    function Value(): ArtValue
      reads this
    {
      ArtValue(emojis, background, emojiID)
    }

    ghost predicate Valid()
      reads this
    {
      Wf(Value())
    }

    /** `EmojiArt()` */
    constructor ()
      ensures Valid() && Value() == Empty
    {
      emojis := [];
      background := Blank;
      emojiID := 0;
    }

    method AddEmoji(text: string, position: Position, size: int)
      requires Valid()
      modifies this
      ensures Valid()
      ensures Value() == WithEmojiAdded(old(Value()), text, position, size)
    {
      emojis := emojis + [Emoji(text, position, size, emojiID)];
      emojiID := emojiID + 1;
    }

    method RemoveEmoji(text: string)
      requires Valid()
      requires |emojis| > 0
      modifies this
      ensures Valid()
      ensures Value() == WithFirstEmojiRemoved(old(Value()), text)
    {
      emojis := emojis[1..];
    }

    method SetBackground(background: Background)
      requires Valid()
      modifies this
      ensures Valid()
      ensures Value() == WithBackground(old(Value()), background)
    {
      this.background := background;
    }

    /** Whole-struct assignment, as in `self.emojiArt = oldEmojiArt`. */
    method Assign(v: ArtValue)
      requires Wf(v)
      modifies this
      ensures Valid() && Value() == v
    {
      emojis, background, emojiID := v.emojis, v.background, v.emojiID;
    }
  }
}
