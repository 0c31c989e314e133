/** The view model of EmojiArt/EmojiArtDocument.swift: the background fetch
    status and its accessors, the fetch of the background image as a start
    step and a completion step, the `didSet` that triggers a fetch, and the
    undo wrapper through which every intent runs. */
module EmojiArtDocumentModel {
  import opened Foundation
  import opened EmojiArtModel

  // ---------------------------------------------------------------------
  // BackgroundFetchStatus
  // ---------------------------------------------------------------------

  /** `BackgroundFetchStatus`; Swift's `.none` is `Idle` here. */
  datatype FetchStatus = Idle | Fetching(url: URL) | Found(image: UIImage) | Failed(reason: string) {
    /** `uiImage` */
    function UIImageOf(): (r: Option<UIImage>)
      ensures r.Some? <==> Found?
      ensures r.Some? ==> r.value == image
    {
      match this
      case Found(i) => Some(i)
      case _ => None
    }

    /** `urlBeingFetched` */
    function UrlBeingFetched(): (r: Option<URL>)
      ensures r.Some? <==> Fetching?
      ensures r.Some? ==> r.value == url
    {
      match this
      case Fetching(u) => Some(u)
      case _ => None
    }

    /** `isFetching` */
    function IsFetching(): (r: bool)
      ensures r <==> Fetching?
      ensures r ==> UIImageOf().None?
    {
      UrlBeingFetched().Some?
    }

    /** `failureReason`; at most one of the accessors reports a value. */
    function FailureReason(): (r: Option<string>)
      ensures r.Some? <==> Failed?
      ensures r.Some? ==> r.value == reason
      ensures r.Some? ==> UIImageOf().None? && !IsFetching()
    {
      match this
      case Failed(why) => Some(why)
      case _ => None
    }
  }

  // ---------------------------------------------------------------------
  // fetchUIImage
  // ---------------------------------------------------------------------

  /** The errors `fetchUIImage` can throw: the download's own error, or
      `FetchError.badImageData` when the bytes are not an image. */
  datatype FetchError = Transport(description: string) | BadImageData

  /** `fetchUIImage(from:)`, given the outcome of the download and the image
      decoder `UIImage(data:)`. */
  function FetchUIImage(download: Result<seq<byte>, string>, decode: seq<byte> -> Option<UIImage>): (r: Result<UIImage, FetchError>)
    ensures r.Success? <==> download.Success? && decode(download.value).Some?
    ensures r.Success? ==> r.value == decode(download.value).value
    ensures r == Failure(BadImageData) <==> download.Success? && decode(download.value).None?
    ensures download.Failure? ==> r == Failure(Transport(download.error))
  {
    match download
    case Failure(e) => Failure(Transport(e))
    case Success(data) =>
      match decode(data)
      case Some(image) => Success(image)
      case None => Failure(BadImageData)
  }

  // ---------------------------------------------------------------------
  // fetchBackgroundImage as two steps
  // ---------------------------------------------------------------------

  /** The two published fields `backgroundImage` and `backgroundFetchStatus`. */
  datatype FetchState = FetchState(image: Option<UIImage>, status: FetchStatus)

  /** A found status always shows the image that was published with it. */
  predicate Consistent(s: FetchState) {
    s.status.Found? ==> s.image == Some(s.status.image)
  }

  /** What the fetch does before its first suspension, for the background
      current when it starts. The force-unwrap of a decoded `imageData`
      background traps unless the bytes decode. */
  function StartStep(s: FetchState, background: Background, decode: seq<byte> -> Option<UIImage>): (r: FetchState)
    requires background.ImageData? ==> decode(background.data).Some?
    ensures background.Blank? ==> r.image.None? && r.status.Idle?
    ensures background.Url? ==> r.image == s.image && r.status.UrlBeingFetched() == Some(background.url)
    ensures background.ImageData? ==> r.image == decode(background.data) && r.status.UIImageOf() == r.image
    ensures Consistent(s) ==> Consistent(r)
  {
    match background
    case Blank => FetchState(None, Idle)
    case Url(u) => FetchState(s.image, Fetching(u))
    case ImageData(d) => FetchState(decode(d), Found(decode(d).value))
  }

  /** What a fetch of `url` does once its download has finished, against the
      background current at that moment. A success is published only while
      `url` is still the background's URL; a failure is published whatever
      the background has become meanwhile. */
  function CompleteStep(s: FetchState, background: Background, url: URL,
                        outcome: Result<UIImage, FetchError>, describe: FetchError -> string): (r: FetchState)
    ensures outcome.Success? && background.UrlOf() == Some(url) ==>
      r.image == Some(outcome.value) && r.status.UIImageOf() == Some(outcome.value)
    ensures outcome.Success? && background.UrlOf() != Some(url) ==> r == s
    ensures outcome.Failure? ==> r.image == s.image && r.status.FailureReason() == Some(describe(outcome.error))
    ensures Consistent(s) ==> Consistent(r)
  {
    match outcome
    case Success(image) =>
      if background.UrlOf() == Some(url) then FetchState(Some(image), Found(image)) else s
    case Failure(e) => FetchState(s.image, Failed(describe(e)))
  }

  /** A failure that arrives after the background moved on still replaces
      the status of the newer background, even when that background's
      image has already been found. */
  lemma StaleFailureOverwritesFound(image: UIImage, current: URL, stale: URL, e: FetchError, describe: FetchError -> string)
    requires current != stale
    ensures var s := FetchState(Some(image), Found(image));
      var r := CompleteStep(s, Url(current), stale, Failure(e), describe);
      r.image == Some(image) && r.status.UIImageOf().None? && r.status.Failed?
  {
  }

  /** The completion with the guard of the success path applied to the
      failure path too: a completion for a URL that is no longer the
      background changes nothing, whatever its outcome. */
  function CompleteStepGuarded(s: FetchState, background: Background, url: URL,
                               outcome: Result<UIImage, FetchError>, describe: FetchError -> string): (r: FetchState)
    ensures background.UrlOf() != Some(url) ==> r == s
    ensures background.UrlOf() == Some(url) && outcome.Success? ==>
      r.image == Some(outcome.value) && r.status.UIImageOf() == Some(outcome.value)
    ensures background.UrlOf() == Some(url) && outcome.Failure? ==>
      r.image == s.image && r.status.FailureReason() == Some(describe(outcome.error))
    ensures Consistent(s) ==> Consistent(r)
  {
    if background.UrlOf() == Some(url) then CompleteStep(s, background, url, outcome, describe) else s
  }

  /** The guarded completion differs from the code only on stale failures:
      it agrees with `CompleteStep` on every current completion and on every
      success. */
  lemma CompleteStepGuardedAgrees(s: FetchState, background: Background, url: URL,
                                  outcome: Result<UIImage, FetchError>, describe: FetchError -> string)
    requires background.UrlOf() == Some(url) || outcome.Success?
    ensures CompleteStepGuarded(s, background, url, outcome, describe)
         == CompleteStep(s, background, url, outcome, describe)
  {
  }

  // ---------------------------------------------------------------------
  // undoablyPerform
  // ---------------------------------------------------------------------

  /** What a `doit` closure does to the document value: one of the struct's
      intents, or the restore `self.emojiArt = oldEmojiArt` that an undo
      entry runs. */
  datatype Change = Do(intent: Intent) | Restore(snapshot: ArtValue)

  predicate CanPerform(v: ArtValue, change: Change) {
    change.Do? ==> Enabled(v, change.intent)
  }

  /** Every `doit` the document runs keeps the id invariant: an intent
      preserves it and a restore brings back a value that had it. */
  function Perform(v: ArtValue, change: Change): (r: ArtValue)
    requires CanPerform(v, change)
    ensures Wf(v) && (change.Restore? ==> Wf(change.snapshot)) ==> Wf(r)
  {
    match change
    case Do(intent) => Apply(v, intent)
    case Restore(snapshot) => snapshot
  }

  /** The calls `undoablyPerform` makes on the undo manager: it registers an
      entry that will run `undoablyPerform(action)` restoring `snapshot`,
      then names the action. */
  datatype UndoCall = RegisterUndo(action: string, snapshot: ArtValue) | SetActionName(name: string)

  /** The undo-manager calls of one `undoablyPerform(action)` that started
      from `before`; none when no undo manager was injected. */
  function UndoCalls(hasUndoManager: bool, action: string, before: ArtValue): (r: seq<UndoCall>)
    ensures !hasUndoManager ==> r == []
    ensures hasUndoManager ==> |r| == 2 && r[0].RegisterUndo? && r[1].SetActionName?
    ensures hasUndoManager ==> r[0].action == action == r[1].name && r[0].snapshot == before
  {
    if hasUndoManager then [RegisterUndo(action, before), SetActionName(action)] else []
  }

  /** Running the entry registered for a change restores the value from
      before it, and the undo registers, under the same name, an entry that
      redoes the change; running that one in turn registers the undo again. */
  lemma {:induction false} UndoRegistersRedo(v: ArtValue, action: string, change: Change)
    requires CanPerform(v, change)
    ensures var w := Perform(v, change);
      var undo := UndoCalls(true, action, v)[0];
      var redo := UndoCalls(true, undo.action, w)[0];
      && Perform(w, Restore(undo.snapshot)) == v
      && redo.action == action
      && Perform(v, Restore(redo.snapshot)) == w
      && UndoCalls(true, redo.action, v)[0] == undo
  {
  }

  /** The intent labels under which the document registers its changes. */
  function ActionName(intent: Intent): (r: string)
    ensures intent.Add? ==> HasPrefix(r, "Add ") && r[4..] == intent.text
    ensures intent.Remove? ==> HasPrefix(r, "Remove ") && r[7..] == intent.text
    ensures intent.SetBg? ==> r == "Set Background"
  {
    match intent
    case Add(text, _, _) => "Add " + text
    case Remove(text) => "Remove " + text
    case SetBg(_) => "Set Background"
  }

  /** The label says which kind of intent registered it. */
  lemma ActionNameKind(intent: Intent)
    ensures HasPrefix(ActionName(intent), "Add ") <==> intent.Add?
    ensures HasPrefix(ActionName(intent), "Remove ") <==> intent.Remove?
    ensures ActionName(intent) == "Set Background" <==> intent.SetBg?
  {
    var r := ActionName(intent);
    if !intent.Add? {
      assert r[0] != 'A';
    }
    if !intent.Remove? {
      assert r[0] != 'R';
    }
    if !intent.SetBg? {
      assert r[0] != 'S';
    }
  }

  // ---------------------------------------------------------------------
  // The document
  // ---------------------------------------------------------------------

  /** `EmojiArtDocument`. The foreign collaborators are constants: the image
      decoder `UIImage(data:)` and the `localizedDescription` of a fetch
      error. A `Task` spawned by `didSet` is counted in `pendingFetches`
      until it starts; a fetch awaiting its download is an entry of
      `inFlight`; `undoLog` is the sequence of calls made on the injected
      undo manager. */
  class EmojiArtDocument {
    var emojiArt: ArtValue
    var hasUndoManager: bool
    var undoLog: seq<UndoCall>
    var backgroundImage: Option<UIImage>
    var backgroundFetchStatus: FetchStatus
    var pendingFetches: nat
    var inFlight: seq<URL>
    const decode: seq<byte> -> Option<UIImage>
    const describe: FetchError -> string

    function Fetch(): FetchState
      reads this
    {
      FetchState(backgroundImage, backgroundFetchStatus)
    }

    /** The value invariant, consistency of the published image, and every
        registered undo entry restores a well-formed value. */
    ghost predicate Valid()
      reads this
    {
      && Wf(emojiArt)
      && Consistent(Fetch())
      && forall k :: 0 <= k < |undoLog| && undoLog[k].RegisterUndo? ==> Wf(undoLog[k].snapshot)
    }

    /** `init()` */
    constructor (decode: seq<byte> -> Option<UIImage>, describe: FetchError -> string)
      ensures Valid()
      ensures emojiArt == Empty && !hasUndoManager && undoLog == []
      ensures Fetch() == FetchState(None, Idle) && pendingFetches == 0 && inFlight == []
      ensures this.decode == decode && this.describe == describe
    {
      emojiArt := Empty;
      hasUndoManager := false;
      undoLog := [];
      backgroundImage := None;
      backgroundFetchStatus := Idle;
      pendingFetches := 0;
      inFlight := [];
      this.decode := decode;
      this.describe := describe;
    }

    /** `injectUndoManager(_:)`: `present` says whether a manager or nil
        was injected. */
    method InjectUndoManager(present: bool)
      modifies this`hasUndoManager
      ensures hasUndoManager == present
    {
      hasUndoManager := present;
    }

    /** Assignment to `emojiArt` with its `didSet`: a fetch task is spawned
        exactly when the background changed. */
    method SetEmojiArt(newValue: ArtValue)
      modifies this`emojiArt, this`pendingFetches
      ensures emojiArt == newValue
      ensures newValue.background != old(emojiArt.background) ==> pendingFetches == old(pendingFetches) + 1
      ensures newValue.background == old(emojiArt.background) ==> pendingFetches == old(pendingFetches)
    {
      var oldValue := emojiArt;
      emojiArt := newValue;
      if emojiArt.background != oldValue.background {
        pendingFetches := pendingFetches + 1;
      }
    }

    /** `undoablyPerform(_:doit:)` */
    method UndoablyPerform(action: string, change: Change)
      requires Valid()
      requires CanPerform(emojiArt, change)
      requires change.Restore? ==> Wf(change.snapshot)
      modifies this`emojiArt, this`pendingFetches, this`undoLog
      ensures Valid()
      ensures emojiArt == Perform(old(emojiArt), change)
      ensures undoLog == old(undoLog) + UndoCalls(hasUndoManager, action, old(emojiArt))
      ensures emojiArt.background != old(emojiArt.background) ==> pendingFetches == old(pendingFetches) + 1
      ensures emojiArt.background == old(emojiArt.background) ==> pendingFetches == old(pendingFetches)
    {
      var oldEmojiArt := emojiArt;
      SetEmojiArt(Perform(emojiArt, change));
      if hasUndoManager {
        undoLog := undoLog + [RegisterUndo(action, oldEmojiArt)];
      }
      if hasUndoManager {
        undoLog := undoLog + [SetActionName(action)];
      }
    }

    /** The undo manager running the entry registered at position `k`: it
        performs `undoablyPerform(action) { emojiArt = oldEmojiArt }`. */
    method RunRegisteredUndo(k: nat)
      requires Valid()
      requires k < |undoLog| && undoLog[k].RegisterUndo?
      modifies this`emojiArt, this`pendingFetches, this`undoLog
      ensures Valid()
      ensures emojiArt == old(undoLog[k].snapshot)
      ensures undoLog == old(undoLog) + UndoCalls(hasUndoManager, old(undoLog[k].action), old(emojiArt))
      ensures emojiArt.background != old(emojiArt.background) ==> pendingFetches == old(pendingFetches) + 1
      ensures emojiArt.background == old(emojiArt.background) ==> pendingFetches == old(pendingFetches)
    {
      var entry := undoLog[k];
      UndoablyPerform(entry.action, Restore(entry.snapshot));
    }

    /** `addEmoji(_:at:size:)`; the size arrives already converted to `Int`. */
    method AddEmoji(emoji: string, position: Position, size: int)
      requires Valid()
      modifies this`emojiArt, this`pendingFetches, this`undoLog
      ensures Valid()
      ensures emojiArt == WithEmojiAdded(old(emojiArt), emoji, position, size)
      ensures undoLog == old(undoLog) + UndoCalls(hasUndoManager, ActionName(Add(emoji, position, size)), old(emojiArt))
      ensures pendingFetches == old(pendingFetches)
    {
      UndoablyPerform("Add " + emoji, Do(Add(emoji, position, size)));
    }

    /** `removeEmoji(_:)`: the label names the given emoji, while the struct
        drops its first emoji. */
    method RemoveEmoji(emoji: Emoji)
      requires Valid()
      requires |emojiArt.emojis| > 0
      modifies this`emojiArt, this`pendingFetches, this`undoLog
      ensures Valid()
      ensures emojiArt == WithFirstEmojiRemoved(old(emojiArt), emoji.text)
      ensures undoLog == old(undoLog) + UndoCalls(hasUndoManager, ActionName(Remove(emoji.text)), old(emojiArt))
      ensures pendingFetches == old(pendingFetches)
    {
      UndoablyPerform("Remove " + emoji.text, Do(Remove(emoji.text)));
    }

    /** `setBackground(_:)` */
    method SetBackground(background: Background)
      requires Valid()
      modifies this`emojiArt, this`pendingFetches, this`undoLog
      ensures Valid()
      ensures emojiArt == WithBackground(old(emojiArt), background)
      ensures undoLog == old(undoLog) + UndoCalls(hasUndoManager, ActionName(SetBg(background)), old(emojiArt))
      ensures background != old(emojiArt.background) ==> pendingFetches == old(pendingFetches) + 1
      ensures background == old(emojiArt.background) ==> pendingFetches == old(pendingFetches)
    {
      UndoablyPerform("Set Background", Do(SetBg(background)));
    }

    /** A spawned `fetchBackgroundImage` task starts: it reads the current
        background and runs up to its first suspension. */
    method StartFetch()
      requires Valid()
      requires pendingFetches > 0
      requires emojiArt.background.ImageData? ==> decode(emojiArt.background.data).Some?
      modifies this`backgroundImage, this`backgroundFetchStatus, this`pendingFetches, this`inFlight
      ensures Valid()
      ensures Fetch() == StartStep(old(Fetch()), emojiArt.background, decode)
      ensures pendingFetches == old(pendingFetches) - 1
      ensures inFlight == old(inFlight) + (if emojiArt.background.Url? then [emojiArt.background.url] else [])
    {
      pendingFetches := pendingFetches - 1;
      match emojiArt.background
      case Blank =>
        backgroundImage := None;
        backgroundFetchStatus := Idle;
      case Url(url) =>
        backgroundFetchStatus := Fetching(url);
        inFlight := inFlight + [url];
      case ImageData(data) =>
        backgroundImage := decode(data);
        backgroundFetchStatus := Found(backgroundImage.value);
    }

    /** The download of the in-flight fetch at position `k` finishes with
        `download`, and the suspended task resumes. */
    method CompleteFetch(k: nat, download: Result<seq<byte>, string>)
      requires Valid()
      requires k < |inFlight|
      modifies this`backgroundImage, this`backgroundFetchStatus, this`inFlight
      ensures Valid()
      ensures Fetch() == CompleteStep(old(Fetch()), emojiArt.background, old(inFlight[k]), FetchUIImage(download, decode), describe)
      ensures inFlight == old(inFlight[..k] + inFlight[k + 1..])
    {
      var url := inFlight[k];
      inFlight := inFlight[..k] + inFlight[k + 1..];
      var result := FetchUIImage(download, decode);
      match result
      case Success(image) =>
        if emojiArt.background.UrlOf() == Some(url) {
          backgroundImage := Some(image);
          backgroundFetchStatus := Found(image);
        }
      case Failure(error) =>
        backgroundFetchStatus := Failed(describe(error));
    }
  }
}
