# EmojiArt core in Dafny

A verified model of the logic beneath the EmojiArt screens (a SwiftUI
document editor that places emoji on a canvas over a background image and
keeps palettes of emoji). Four parts are modelled.

- **The document value** (`emoji_art.dfy`, `EmojiArt/EmojiArt.swift`). It holds the ordered list of placed emoji, the background and the private id counter. The mutating intents are `addEmoji`, `removeEmoji` and `setBackground`. The struct is a class `EmojiArt` whose methods update its fields. Its value `ArtValue` is what the document snapshots and restores. The proved invariant is that ids strictly increase along the list and stay below the counter, so ids are unique and the next id is fresh.
- **The palette store** (`palette_store.dfy`, `EmojiArt/PaletteStore.swift`). This is a list of palettes behind a setter that refuses an empty list, plus a cursor. The cursor is wrapped with Swift's truncating `%`. `insert(_:at:)` and `append(_:)` deduplicate by palette id using Swift's `move`, `replaceSubrange`, `remove(at:)` and `append`. Every statement that changes `palettes` goes through the guarded setter, as in Swift.
- **The string and URL helpers** (`extension.dfy`, `base64.dfy`, `EmojiArt/Extension.swift`). These are:
  - `uniqued`, `remove(_:)` and `suffix(after:)`;
  - `imageURL`;
  - `dataSchemeImageData`, with a base 64 decoder following section 4 of RFC 4648;
  - the two initialisers of `Sturldata`.
- **The document view model** (`emoji_art_document.dfy`, `EmojiArt/EmojiArtDocument.swift`). It covers:
  - `BackgroundFetchStatus` and its accessors;
  - the `didSet` on `emojiArt`, which spawns a fetch when the background changed;
  - `fetchBackgroundImage`, as a start step and a completion step with the stale-success guard;
  - `fetchUIImage`;
  - `undoablyPerform`, with the entry it registers on the undo manager;
  - the labelled intents.

`foundation.dfy` holds the Swift and Foundation values the core is written against:
- `Optional`;
- throwing results;
- bytes, `URL` and `UIImage`;
- `hasPrefix`, `hasSuffix` and `firstIndex(of:)`.

`Position.zero` is the constant `EmojiArtModel.Zero`.

The model follows the code, including where it surprises:
- `removeEmoji` ignores its argument and drops the first emoji. It traps on an empty list; it does not remove by id.
- `paletteIndex` wraps with Swift's truncating remainder, which is then corrected into range.
- A failed fetch publishes `failed` without comparing its URL with the current background.
- `Background` has the three cases `blank`, `url` and `imageData`, which is how `EmojiArtDocument.swift` uses it. `EmojiArt.swift` in this revision declares `background: URL?`.

## Model

| member | source | states |
|---|---|---|
| Foundation.FirstIndexOf | EmojiArt/Extension.swift:226 | `firstIndex(of:)` is nil exactly when the element is absent; otherwise it is a position holding the element with no earlier occurrence |
| EmojiArtModel.Background.UrlOf | EmojiArt/EmojiArtDocument.swift:80 | `background.url` is non-nil exactly for a url background, and is then its URL |
| EmojiArtModel.WithEmojiAdded | EmojiArt/EmojiArt.swift:33-36 | appends exactly one emoji at the end with the given string, position and size, with the counter's old value as its id; the counter grows by one; the background is unchanged; the id invariant is kept |
| EmojiArtModel.WithFirstEmojiRemoved | EmojiArt/EmojiArt.swift:38-40 | the argument is ignored: the list loses its first element and the rest shift down; it requires a non-empty list (`remove(at: 0)` traps); counter and background unchanged; the invariant is kept |
| EmojiArtModel.WithBackground | EmojiArt/EmojiArt.swift:42-44 | replaces the background only; emoji and counter unchanged; the invariant holds after exactly when it held before |
| EmojiArtModel.Apply | EmojiArt/EmojiArt.swift:31-44 | every intent keeps the id invariant |
| EmojiArtModel.IdsFreshImpliesUnique | EmojiArt/EmojiArt.swift:31-35 | under the invariant, two different positions hold different ids |
| EmojiArtModel.RunKeepsIdsFresh | EmojiArt/EmojiArt.swift:31-44 | over any run of intents the invariant is kept, the counter never decreases, and every emoji that was not there at the start carries an id between the old and the new counter |
| EmojiArtModel.EmojiArt.constructor | EmojiArt/EmojiArt.swift:12-31 | `EmojiArt()` has no emoji, a blank background and counter 0, and satisfies the invariant |
| EmojiArtModel.EmojiArt.AddEmoji | EmojiArt/EmojiArt.swift:33-36 | the new fields are `WithEmojiAdded` of the old ones; the invariant is kept |
| EmojiArtModel.EmojiArt.RemoveEmoji | EmojiArt/EmojiArt.swift:38-40 | the new fields are `WithFirstEmojiRemoved` of the old ones; the invariant is kept |
| EmojiArtModel.EmojiArt.SetBackground | EmojiArt/EmojiArt.swift:42-44 | the new fields are `WithBackground` of the old ones; the invariant is kept |
| EmojiArtModel.EmojiArt.Assign | EmojiArt/EmojiArtDocument.swift:144 | assigning a well-formed snapshot makes the struct equal to it |
| PaletteStoreModel.SwiftRemainder | EmojiArt/PaletteStore.swift:57 | Swift's `%` with a positive divisor: strictly between `-count` and `count`, carrying the sign of the dividend, and congruent to it |
| PaletteStoreModel.BoundsCheckedIndex | EmojiArt/PaletteStore.swift:56-62 | for every integer, negatives included, the result lies in `[0, count)` and is congruent to the input modulo `count` |
| PaletteStoreModel.RemoveAt | EmojiArt/PaletteStore.swift:105 | `remove(at:)` removes one element: shorter by one, with the earlier elements kept and the later ones shifted down |
| PaletteStoreModel.InsertAt | EmojiArt/PaletteStore.swift:92 | `insert(_:at:)` puts the element at the index, and removing it there gives back the list |
| PaletteStoreModel.ReplaceAt | EmojiArt/PaletteStore.swift:90 | `replaceSubrange(i...i, with: [x])` changes position `i` only |
| PaletteStoreModel.MoveToOffset | EmojiArt/PaletteStore.swift:89 | `move(fromOffsets:toOffset:)` with an offset into the original array: remove the element, then insert it at the offset, less one when the offset lies after the source |
| PaletteStoreModel.FirstIndexOfId | EmojiArt/PaletteStore.swift:88 | `firstIndex(where: { $0.id == id })`: nil exactly when no palette has the id, else the first such position |
| PaletteStoreModel.CountIdMoveToOffset | EmojiArt/PaletteStore.swift:89 | moving an element keeps the number of palettes with each id |
| PaletteStoreModel.InsertAsWritten | EmojiArt/PaletteStore.swift:86-94 | `insert`'s list effect for a bounds-checked index: the palette always ends at the insertion index, and the list stays non-empty |
| PaletteStoreModel.InsertAbsent | EmojiArt/PaletteStore.swift:91-92 | for an absent id, the list grows by one, the palette sits at the insertion index, and removing it there gives back the old list in order |
| PaletteStoreModel.InsertPresentAtOrAfter | EmojiArt/PaletteStore.swift:81-90 | for a present id whose first copy is at or after the insertion index, the count is kept and the palette is at the insertion index; the rest is the old list without that copy, so this equals the deduplicating insert the comment promises |
| PaletteStoreModel.InsertPresentBefore | EmojiArt/PaletteStore.swift:88-90 | for a present id whose first copy is before the insertion index, that copy survives just before the new palette; when the overwritten palette had another id, the number of palettes with the id grows by one |
| PaletteStoreModel.InsertAsWrittenDuplicates | EmojiArt/PaletteStore.swift:86-90 | inserting a new version `p` of `x` at index 1 into `[x, y]` yields `[x, p]`: two palettes with one id, and `y` is lost |
| PaletteStoreModel.InsertWithoutDuplication | EmojiArt/PaletteStore.swift:81-84 | the insert the comment describes (drop the existing copy, then insert) places the palette at the insertion index |
| PaletteStoreModel.InsertWithoutDuplicationCounts | EmojiArt/PaletteStore.swift:81-84 | that insert never causes new duplication and never remedies existing duplication: an absent id appears once, a present id keeps its count, and every other id keeps its count |
| PaletteStoreModel.AppendAsWritten | EmojiArt/PaletteStore.swift:100-111 | `append`'s list effect: the result is non-empty and ends with the palette |
| PaletteStoreModel.AppendAbsent | EmojiArt/PaletteStore.swift:108-110 | an absent id is appended as the last element |
| PaletteStoreModel.AppendPresent | EmojiArt/PaletteStore.swift:101-107 | for a present id, the result is the old list without its copy, followed by the palette; the length and the count of every id are kept; a one-element list becomes exactly `[palette]` |
| PaletteStoreModel.PaletteStore.constructor | EmojiArt/PaletteStore.swift:72-77 | `init(name:)` keeps the stored palettes, or falls back to the built-ins when none are stored; the cursor starts at 0 |
| PaletteStoreModel.PaletteStore.SetPalettes | EmojiArt/PaletteStore.swift:36-41 | assigning an empty list is ignored, so a non-empty list never becomes empty |
| PaletteStoreModel.PaletteStore.PaletteIndex | EmojiArt/PaletteStore.swift:50-51 | the getter re-checks the stored cursor, so it is a valid index even after the list shrank |
| PaletteStoreModel.PaletteStore.SetPaletteIndex | EmojiArt/PaletteStore.swift:52 | the setter stores the bounds-checked value, and the getter then returns the new value wrapped into range |
| PaletteStoreModel.PaletteStore.Insert | EmojiArt/PaletteStore.swift:86-94 | the new list is `InsertAsWritten` at the given index, or at the current `paletteIndex`, bounds-checked; it is never empty |
| PaletteStoreModel.PaletteStore.InsertNamed | EmojiArt/PaletteStore.swift:96-98 | `insert(name:emojis:at:)` is `insert` of the new palette |
| PaletteStoreModel.PaletteStore.Append | EmojiArt/PaletteStore.swift:100-111 | the new list is `AppendAsWritten` of the old one, reached through separate assignments to the guarded setter |
| PaletteStoreModel.PaletteStore.AppendNamed | EmojiArt/PaletteStore.swift:113-115 | `append(name:emojis:)` is `append` of the new palette |
| Base64.ValueOf | EmojiArt/Extension.swift:232 | the alphabet value of a character is the inverse of the alphabet table, and the pad `=` has no value |
| Base64.Decode | EmojiArt/Extension.swift:232 | `Data(base64Encoded:)` succeeds only on a whole number of four-character groups, yielding at most three bytes per group |
| Base64.Encode | EmojiArt/Extension.swift:232 | the encoding of bytes is a whole number of groups, and is empty only for no bytes |
| Base64.DecodeEncode | EmojiArt/Extension.swift:232 | decoding the encoding of any byte string gives the bytes back |
| Extension.Dedup | EmojiArt/Extension.swift:30-36 | `uniqued` has no repeated character, has the same set of characters as its input, and is no longer than it |
| Extension.DedupKeepsFirstOccurrenceOrder | EmojiArt/Extension.swift:30-36 | `uniqued` lists the characters in the order of their first occurrences in the input |
| Extension.DedupOfDistinct | EmojiArt/Extension.swift:30-36 | a string without repeated characters is its own `uniqued` |
| Extension.DedupIdempotent | EmojiArt/Extension.swift:30-36 | `uniqued` is idempotent |
| Extension.Uniqued | EmojiArt/Extension.swift:30-36 | the `reduce(into:)` accumulation computes `Dedup`: no repeats, and the same characters as the input |
| Extension.RemoveAll | EmojiArt/Extension.swift:38-40 | after `remove(c)` no `c` is left, and every other character occurs as often as before |
| Extension.RemoveAllConcat | EmojiArt/Extension.swift:38-40 | removal distributes over concatenation, so the remaining characters keep their relative order |
| Extension.SuffixAfter | EmojiArt/Extension.swift:54-58 | `suffix(after: i)` is what follows position `i`: the prefix through `i` followed by it is the whole collection; it requires `i` to be a valid index |
| Extension.FirstEmbedding | EmojiArt/Extension.swift:206-210 | the loop finds the first query item whose value starts with "http" and parses as a URL, or none when no item does |
| Extension.ImageURL | EmojiArt/Extension.swift:204-213 | `imageURL` is `self` when there are no query items or none embeds a URL; otherwise it is the URL parsed from the first item whose value starts with "http" and parses |
| Extension.DataSchemeImageData | EmojiArt/Extension.swift:221-240 | nil without the "data:image" prefix, without a comma, or when the text before the first comma does not end with "base64"; otherwise it is the base 64 decoding of the text after that comma, nil when decoding fails |
| Extension.DataSchemeHeader | EmojiArt/Extension.swift:224-229 | a "data:image<mime>;base64" header has the prefix and the suffix the helper checks, and no comma |
| Extension.DataSchemePayload | EmojiArt/Extension.swift:224-234 | on "header,payload" with such a header, the helper yields exactly the decoding of the payload |
| Extension.DataSchemeRoundTrip | EmojiArt/Extension.swift:221-240 | a data-scheme URL built from the base 64 encoding of some bytes yields those bytes back |
| Extension.FromString | EmojiArt/Extension.swift:180-187 | `Sturldata(string:)` is `.string(s)` exactly when `s` does not start with "http" or does not parse; a string that starts with "http" and parses becomes `.url` of the parsed URL's image URL |
| Extension.FromURL | EmojiArt/Extension.swift:168-178 | `Sturldata(url:)` is `.data` exactly when the URL carries data-scheme image data, and is then that data; otherwise it is `.url(url.imageURL)` |
| EmojiArtDocumentModel.FetchStatus.UIImageOf | EmojiArt/EmojiArtDocument.swift:112-117 | `uiImage` is non-nil exactly for `found`, and is then its image |
| EmojiArtDocumentModel.FetchStatus.UrlBeingFetched | EmojiArt/EmojiArtDocument.swift:119-124 | `urlBeingFetched` is non-nil exactly for `fetching`, and is then its URL |
| EmojiArtDocumentModel.FetchStatus.IsFetching | EmojiArt/EmojiArtDocument.swift:126 | `isFetching` holds exactly for `fetching`, and then `uiImage` is nil |
| EmojiArtDocumentModel.FetchStatus.FailureReason | EmojiArt/EmojiArtDocument.swift:128-133 | `failureReason` is non-nil exactly for `failed`, and then neither of the other accessors reports a value |
| EmojiArtDocumentModel.FetchUIImage | EmojiArt/EmojiArtDocument.swift:93-100 | succeeds exactly when the download succeeds and its bytes decode; throws `badImageData` exactly when the downloaded bytes do not decode; passes a download error through |
| EmojiArtDocumentModel.StartStep | EmojiArt/EmojiArtDocument.swift:71-89 | a blank background clears the image and sets `none`; a url background sets `fetching(url)` and keeps the image; an `imageData` background publishes the decoded image as `found` (decoding must succeed because of the force-unwrap); a found status always shows the published image |
| EmojiArtDocumentModel.CompleteStep | EmojiArt/EmojiArtDocument.swift:78-86 | a success is published as `found` only while its URL is still the background's URL, and is otherwise dropped with the state unchanged; a failure publishes `failed(reason)` with no such check; a found status always shows the published image |
| EmojiArtDocumentModel.StaleFailureOverwritesFound | EmojiArt/EmojiArtDocument.swift:84-86 | a failure of an older URL replaces the `found` status of the newer background, while the newer image stays displayed |
| EmojiArtDocumentModel.CompleteStepGuarded | EmojiArt/EmojiArtDocument.swift:78-86 | the completion with the guard on both paths: a completion for a URL that is no longer the background changes nothing |
| EmojiArtDocumentModel.CompleteStepGuardedAgrees | EmojiArt/EmojiArtDocument.swift:78-86 | the guarded completion equals the code's completion on every success and on every completion for the current URL |
| EmojiArtDocumentModel.Perform | EmojiArt/EmojiArtDocument.swift:138-146 | every `doit` closure (an intent of the struct, or the restore of a snapshot) keeps the emoji-id invariant when the snapshot has it |
| EmojiArtDocumentModel.UndoCalls | EmojiArt/EmojiArtDocument.swift:142-147 | with an undo manager, exactly one entry is registered, restoring the value from before the change, and the action is then named with the same label; with none, nothing happens |
| EmojiArtDocumentModel.UndoRegistersRedo | EmojiArt/EmojiArtDocument.swift:138-148 | running the registered entry restores the old value; the undo registers, under the same label, an entry that redoes the change, and redoing registers the original undo entry again |
| EmojiArtDocumentModel.ActionName | EmojiArt/EmojiArtDocument.swift:150-166 | the labels are "Add " and "Remove " followed by the emoji's string, and "Set Background" |
| EmojiArtDocumentModel.ActionNameKind | EmojiArt/EmojiArtDocument.swift:150-166 | a label determines which kind of intent registered it |
| EmojiArtDocumentModel.EmojiArtDocument.constructor | EmojiArt/EmojiArtDocument.swift:38-67 | `init()` has an empty document, no undo manager, no image, status `none` and no fetch pending |
| EmojiArtDocumentModel.EmojiArtDocument.InjectUndoManager | EmojiArt/EmojiArtDocument.swift:41-43 | injecting sets or clears the undo manager |
| EmojiArtDocumentModel.EmojiArtDocument.SetEmojiArt | EmojiArt/EmojiArtDocument.swift:48-56 | assigning `emojiArt` spawns one fetch task exactly when the background changed |
| EmojiArtDocumentModel.EmojiArtDocument.UndoablyPerform | EmojiArt/EmojiArtDocument.swift:138-148 | the value becomes the change applied to the old value; the undo manager receives exactly `UndoCalls` for the old value; a fetch is spawned exactly when the background changed; every registered entry restores a well-formed value |
| EmojiArtDocumentModel.EmojiArtDocument.RunRegisteredUndo | EmojiArt/EmojiArtDocument.swift:142-146 | running a registered entry assigns its snapshot, registers the entry that re-applies the value it replaced, and through `didSet` spawns a fetch exactly when the background changes back |
| EmojiArtDocumentModel.EmojiArtDocument.AddEmoji | EmojiArt/EmojiArtDocument.swift:150-154 | adds the emoji undoably under "Add <emoji>"; no fetch is spawned |
| EmojiArtDocumentModel.EmojiArtDocument.RemoveEmoji | EmojiArt/EmojiArtDocument.swift:156-160 | drops the first emoji undoably under "Remove <emoji>"; no fetch is spawned |
| EmojiArtDocumentModel.EmojiArtDocument.SetBackground | EmojiArt/EmojiArtDocument.swift:162-166 | sets the background undoably under "Set Background"; a fetch is spawned exactly when the background changed |
| EmojiArtDocumentModel.EmojiArtDocument.StartFetch | EmojiArt/EmojiArtDocument.swift:71-89 | a spawned task starts: the published fields become `StartStep` for the current background, and a url background's fetch joins the in-flight ones |
| EmojiArtDocumentModel.EmojiArtDocument.CompleteFetch | EmojiArt/EmojiArtDocument.swift:78-86 | an in-flight fetch resumes: the published fields become `CompleteStep` against the background current now, for the outcome of `fetchUIImage` |

## Left out

- Persistence is not modelled. This covers the `UserDefaults` reads and writes under the store's name (PaletteStore.swift:10-25, 34, 38), the JSON snapshot and `FileWrapper` of the document (EmojiArtDocument.swift:17-35), and the `Codable` conformances. The store keeps its list in memory, and the constructor receives the stored list as a parameter.
- Change notifications are not modelled: `objectWillChange.send()`, `@Published`, and the `didSet` on `_paletteIndex`. Neither are the store's `lazy var id` or its `Hashable` conformance.
- The static lists of built-in palettes and stores are not modelled, nor is `Palette`'s initialiser. The constructor takes the built-ins as a parameter and needs them to be non-empty when nothing is stored. The named insert and append take the id the new palette would receive.
- `UndoManager`'s own undo and redo stacks are not modelled. The document records the calls it makes on the manager (`registerUndo`, `setActionName`). The manager running a registered entry is `RunRegisteredUndo`.
- `Task` and `@MainActor` scheduling are modelled as interleaved steps: a fetch task spawned by `didSet` is pending until `StartFetch`, and a url fetch stays in flight until `CompleteFetch`. Real concurrency is not modelled.
- These foreign calls are parameters or constants:
  - `URLSession` data loading is the `download` outcome;
  - `UIImage(data:)` is the `decode` function;
  - `localizedDescription` is the `describe` function;
  - `URL(string:)` and the query items of `URLComponents` are the `URLParsing` record.
- Data-scheme URLs are only decoded here; building one from bytes is not something the code does, and is used only to state the round trip.
- Base64.Decode: accepts groups whose unused pad bits are non-zero, and does not model any leniency of Foundation beyond section 4 of RFC 4648 (such as missing padding).
- `removeBackground`, `resize`, `move` and `emojiArt.id` are not part of this model. The document calls them (EmojiArtDocument.swift:62-64, 168-184), but `EmojiArt.swift` in this revision does not define them.
- The conversion `Int(size)` from `CGFloat` is not modelled: the document's `AddEmoji` receives the size already as an integer. Floating-point geometry is not modelled either: `CGOffset +`, `CGRect.center` and `Position.in`.
- `Character.isEmoji` is not modelled, because it depends on Unicode property tables. A Swift `Character` (a grapheme cluster) is one opaque `char`.
- These views and presentation code are not part of this model: `UndoButton`, `AnimatedActionButton`, the `transferRepresentation` of `Sturldata`, and `UTType.emojiart`.
- Extension.RemoveAll: the mutating `remove(_:)` is a function from the old string to the new one, since a Swift `String` is a value and the in-place `removeAll` is a library call.

## Findings

| source | as written | input that shows it | evidently intended | confidence | as-written member | corrected member |
|---|---|---|---|---|---|---|
| EmojiArt/PaletteStore.swift:88-90 | when a palette with the id sits before the insertion index, `move(fromOffsets:toOffset:)` lands it at `insertionIndex - 1`, and `replaceSubrange` then overwrites a different palette | `[x, y]` with a new version `p` of `x` inserted at 1 gives `[x, p]`: a duplicate id, and `y` is lost | no new duplication: drop the existing copy and put the palette at the insertion index, giving `[y, p]` (the comment at lines 81-84) | not executed | PaletteStoreModel.InsertAsWrittenDuplicates | PaletteStoreModel.InsertWithoutDuplicationCounts |
| EmojiArt/EmojiArtDocument.swift:84-86 | the error path of `fetchBackgroundImage` publishes `failed` without the URL check that guards the success path at line 80 | background set to URL `a`, then to `b`; `b` is found, and `a` then fails: the status becomes `failed` while `b`'s image is shown | a completion for a URL that is no longer the background changes nothing | not executed | EmojiArtDocumentModel.StaleFailureOverwritesFound | EmojiArtDocumentModel.CompleteStepGuarded |
