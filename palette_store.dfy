/** The palette store of EmojiArt/PaletteStore.swift: an ordered, never-empty
    list of palettes behind a guarded setter, a wrapped cursor, and the
    insert/append operations that try not to add a second palette with an id
    already present. The list is kept in memory rather than in UserDefaults. */
module PaletteStoreModel {
  import opened Foundation

  /** A palette: its identity, its name and its emoji. */
  datatype Palette = Palette(id: int, name: string, emojis: string)

  // ---------------------------------------------------------------------
  // Swift integer remainder and the cursor bounds check
  // ---------------------------------------------------------------------

  /** Swift's `%` for a positive divisor: it truncates toward zero, so the
      remainder takes the sign of the dividend (Dafny's `%` is Euclidean). */
  function SwiftRemainder(a: int, b: int): (r: int)
    requires b > 0
    ensures -b < r < b
    ensures a >= 0 ==> r >= 0
    ensures a < 0 ==> r <= 0
    ensures (a - r) % b == 0
  {
    if a >= 0 then
      DivModUnique(a - a % b, b, a / b, 0);
      a % b
    else
      var x := -a;
      DivModUnique(a + x % b, b, -(x / b), 0);
      -(x % b)
  }

  /** `boundsCheckedPaletteIndex(_:)`: wraps any integer, negatives included,
      into [0, count); the result is congruent to `index`, indeed it is the
      Euclidean residue `index % count`. */
  function BoundsCheckedIndex(index: int, count: int): (r: int)
    requires count > 0
    ensures 0 <= r < count
    ensures (r - index) % count == 0
    ensures r == index % count
  {
    var i := SwiftRemainder(index, count);
    var r := if i < 0 then i + count else i;
    var q := (index - i) / count;
    assert index - i == count * q;
    if i < 0 then
      DivModUnique(index, count, q - 1, r);
      DivModUnique(r - index, count, 1 - q, 0);
      r
    else
      DivModUnique(index, count, q, r);
      DivModUnique(r - index, count, -q, 0);
      r
  }

  // ---------------------------------------------------------------------
  // The Swift Array operations the store uses
  // ---------------------------------------------------------------------

  /** `remove(at:)` */
  function RemoveAt<T>(a: seq<T>, i: nat): (r: seq<T>)
    requires i < |a|
    ensures |r| == |a| - 1
    ensures forall k :: 0 <= k < i ==> r[k] == a[k]
    ensures forall k :: i <= k < |r| ==> r[k] == a[k + 1]
  {
    a[..i] + a[i + 1..]
  }

  /** `insert(_:at:)` */
  function InsertAt<T>(a: seq<T>, i: nat, x: T): (r: seq<T>)
    requires i <= |a|
    ensures |r| == |a| + 1 && r[i] == x
    ensures RemoveAt(r, i) == a
  {
    var r := a[..i] + [x] + a[i..];
    assert RemoveAt(r, i) == a;
    r
  }

  /** `replaceSubrange(i...i, with: [x])` */
  function ReplaceAt<T>(a: seq<T>, i: nat, x: T): (r: seq<T>)
    requires i < |a|
    ensures |r| == |a| && r[i] == x
    ensures RemoveAt(r, i) == RemoveAt(a, i)
  {
    a[i := x]
  }

  /** `move(fromOffsets: IndexSet([from]), toOffset: to)`: the destination is
      an offset into the ORIGINAL array, so a forward move lands one place
      before `to`. */
  function MoveToOffset<T>(a: seq<T>, from: nat, to: nat): (r: seq<T>)
    requires from < |a| && to <= |a|
    ensures r == InsertAt(RemoveAt(a, from), if to > from then to - 1 else to, a[from])
  {
    if to > from then
      MoveForward(a, from, to);
      a[..from] + a[from + 1..to] + [a[from]] + a[to..]
    else
      MoveBackward(a, from, to);
      a[..to] + [a[from]] + a[to..from] + a[from + 1..]
  }

  lemma MoveForward<T>(a: seq<T>, from: nat, to: nat)
    requires from < to <= |a|
    ensures a[..from] + a[from + 1..to] + [a[from]] + a[to..] == InsertAt(RemoveAt(a, from), to - 1, a[from])
  {
    var b := RemoveAt(a, from);
    assert b == a[..from] + a[from + 1..];
    assert b[..to - 1] == a[..from] + a[from + 1..to];
    assert b[to - 1..] == a[to..];
    assert InsertAt(b, to - 1, a[from]) == b[..to - 1] + [a[from]] + b[to - 1..];
  }

  lemma MoveBackward<T>(a: seq<T>, from: nat, to: nat)
    requires to <= from < |a|
    ensures a[..to] + [a[from]] + a[to..from] + a[from + 1..] == InsertAt(RemoveAt(a, from), to, a[from])
  {
    var b := RemoveAt(a, from);
    assert b == a[..from] + a[from + 1..];
    assert b[..to] == a[..to];
    assert b[to..] == a[to..from] + a[from + 1..];
    assert InsertAt(b, to, a[from]) == b[..to] + [a[from]] + b[to..];
  }

  /** `firstIndex(where: { $0.id == id })` */
  function FirstIndexOfId(a: seq<Palette>, id: int): (r: Option<nat>)
    ensures r.None? <==> forall k :: 0 <= k < |a| ==> a[k].id != id
    ensures r.Some? ==> r.value < |a| && a[r.value].id == id
    ensures r.Some? ==> forall k :: 0 <= k < r.value ==> a[k].id != id
  {
    if |a| == 0 then None
    else if a[0].id == id then Some(0)
    else
      match FirstIndexOfId(a[1..], id)
      case None => None
      case Some(k) => Some(k + 1)
  }

  // ---------------------------------------------------------------------
  // Counting palettes per id
  // ---------------------------------------------------------------------

  /** How many palettes in `a` carry `id`. */
  function CountId(a: seq<Palette>, id: int): nat
  {
    if a == [] then 0 else (if a[0].id == id then 1 else 0) + CountId(a[1..], id)
  }

  lemma {:induction false} CountIdConcat(a: seq<Palette>, b: seq<Palette>, id: int)
    ensures CountId(a + b, id) == CountId(a, id) + CountId(b, id)
  {
    if a == [] {
      assert a + b == b;
    } else {
      assert (a + b)[1..] == a[1..] + b;
      CountIdConcat(a[1..], b, id);
    }
  }

  lemma CountIdRemoveAt(a: seq<Palette>, i: nat, id: int)
    requires i < |a|
    ensures CountId(a, id) == CountId(RemoveAt(a, i), id) + (if a[i].id == id then 1 else 0)
  {
    assert a == a[..i] + ([a[i]] + a[i + 1..]);
    CountIdConcat(a[..i], [a[i]] + a[i + 1..], id);
    CountIdConcat([a[i]], a[i + 1..], id);
    CountIdConcat(a[..i], a[i + 1..], id);
  }

  lemma CountIdInsertAt(a: seq<Palette>, i: nat, x: Palette, id: int)
    requires i <= |a|
    ensures CountId(InsertAt(a, i, x), id) == CountId(a, id) + (if x.id == id then 1 else 0)
  {
    CountIdRemoveAt(InsertAt(a, i, x), i, id);
  }

  lemma CountIdReplaceAt(a: seq<Palette>, i: nat, x: Palette, id: int)
    requires i < |a|
    ensures CountId(ReplaceAt(a, i, x), id) + (if a[i].id == id then 1 else 0)
         == CountId(a, id) + (if x.id == id then 1 else 0)
  {
    CountIdRemoveAt(ReplaceAt(a, i, x), i, id);
    CountIdRemoveAt(a, i, id);
  }

  lemma CountIdMoveToOffset(a: seq<Palette>, from: nat, to: nat, id: int)
    requires from < |a| && to <= |a|
    ensures CountId(MoveToOffset(a, from, to), id) == CountId(a, id)
  {
    CountIdRemoveAt(a, from, id);
    CountIdInsertAt(RemoveAt(a, from), if to > from then to - 1 else to, a[from], id);
  }

  // ---------------------------------------------------------------------
  // insert(_:at:) and append(_:) on the list
  // ---------------------------------------------------------------------

  /** The list `insert(_:at:)` leaves behind, with `insertionIndex` already
      bounds-checked: an existing copy is moved to the insertion offset and
      the element then at that index is replaced; otherwise the palette is
      inserted there. */
  function InsertAsWritten(a: seq<Palette>, palette: Palette, insertionIndex: nat): (r: seq<Palette>)
    requires insertionIndex < |a|
    ensures |r| > 0 && insertionIndex < |r| && r[insertionIndex] == palette
  {
    match FirstIndexOfId(a, palette.id)
    case Some(index) =>
      ReplaceAt(MoveToOffset(a, index, insertionIndex), insertionIndex, palette)
    case None =>
      InsertAt(a, insertionIndex, palette)
  }

  /** What the comment above `insert` promises: drop the existing copy (if
      any), then place the palette at the insertion index. */
  function InsertWithoutDuplication(a: seq<Palette>, palette: Palette, insertionIndex: nat): (r: seq<Palette>)
    requires insertionIndex < |a|
    ensures insertionIndex < |r| && r[insertionIndex] == palette
  {
    match FirstIndexOfId(a, palette.id)
    case Some(index) => InsertAt(RemoveAt(a, index), insertionIndex, palette)
    case None => InsertAt(a, insertionIndex, palette)
  }

  /** An absent id: the list grows by one, the palette sits at the insertion
      index and removing it gives back the old list. */
  lemma InsertAbsent(a: seq<Palette>, palette: Palette, insertionIndex: nat)
    requires insertionIndex < |a|
    requires forall k :: 0 <= k < |a| ==> a[k].id != palette.id
    ensures var r := InsertAsWritten(a, palette, insertionIndex);
      |r| == |a| + 1 && r[insertionIndex] == palette && RemoveAt(r, insertionIndex) == a
  {
  }

  /** A present id whose first copy sits at or after the insertion index:
      the count is kept, the palette sits at the insertion index, and the
      rest is the old list with that copy removed, in order. This is exactly
      the behaviour the comment promises. */
  lemma InsertPresentAtOrAfter(a: seq<Palette>, palette: Palette, insertionIndex: nat, index: nat)
    requires insertionIndex < |a|
    requires FirstIndexOfId(a, palette.id) == Some(index)
    requires insertionIndex <= index
    ensures var r := InsertAsWritten(a, palette, insertionIndex);
      && |r| == |a|
      && r[insertionIndex] == palette
      && RemoveAt(r, insertionIndex) == RemoveAt(a, index)
      && r == InsertWithoutDuplication(a, palette, insertionIndex)
  {
    var b := RemoveAt(a, index);
    var m := MoveToOffset(a, index, insertionIndex);
    assert m == InsertAt(b, insertionIndex, a[index]);
    ReplaceInserted(b, insertionIndex, a[index], palette);
  }

  lemma ReplaceInserted<T>(b: seq<T>, i: nat, x: T, y: T)
    requires i <= |b|
    ensures ReplaceAt(InsertAt(b, i, x), i, y) == InsertAt(b, i, y)
  {
    assert InsertAt(b, i, x) == b[..i] + [x] + b[i..];
    assert InsertAt(b, i, y) == b[..i] + [y] + b[i..];
    assert (b[..i] + [x] + b[i..])[i := y] == b[..i] + [y] + b[i..];
  }

  /** A present id whose first copy sits BEFORE the insertion index: Swift's
      move lands the copy at insertionIndex - 1, so the copy survives next to
      the new palette and the palette that was at the insertion index is
      overwritten. */
  lemma InsertPresentBefore(a: seq<Palette>, palette: Palette, insertionIndex: nat, index: nat)
    requires insertionIndex < |a|
    requires FirstIndexOfId(a, palette.id) == Some(index)
    requires index < insertionIndex
    ensures var r := InsertAsWritten(a, palette, insertionIndex);
      && |r| == |a|
      && r[insertionIndex] == palette
      && r[insertionIndex - 1] == a[index]
      && (a[insertionIndex].id != palette.id ==>
            CountId(r, palette.id) == CountId(a, palette.id) + 1)
  {
    var b := RemoveAt(a, index);
    var m := MoveToOffset(a, index, insertionIndex);
    assert m == InsertAt(b, insertionIndex - 1, a[index]);
    assert m[insertionIndex] == a[insertionIndex];
    CountIdMoveToOffset(a, index, insertionIndex, palette.id);
    CountIdReplaceAt(m, insertionIndex, palette, palette.id);
  }

  /** The smallest input that shows it: two palettes `[x, y]` and a new
      version `p` of `x` inserted at index 1. The result is `[x, p]`: two
      palettes with the id of `x`, and `y` is lost. */
  lemma InsertAsWrittenDuplicates(x: Palette, y: Palette, p: Palette)
    requires p.id == x.id && y.id != x.id
    ensures InsertAsWritten([x, y], p, 1) == [x, p]
    ensures y !in InsertAsWritten([x, y], p, 1)
  {
    var a := [x, y];
    assert FirstIndexOfId(a, p.id) == Some(0);
    assert RemoveAt(a, 0) == [y];
    assert InsertAt([y], 0, x) == a;
    assert MoveToOffset(a, 0, 1) == a;
    assert ReplaceAt(a, 1, p) == [x, p];
  }

  /** The intended insert never causes new duplication and never remedies
      existing duplication: an id present before is as frequent after, an
      absent one appears once, and every other id keeps its count. */
  lemma InsertWithoutDuplicationCounts(a: seq<Palette>, palette: Palette, insertionIndex: nat, id: int)
    requires insertionIndex < |a|
    ensures var r := InsertWithoutDuplication(a, palette, insertionIndex);
      CountId(r, id) == if id != palette.id then CountId(a, id)
                        else if CountId(a, id) == 0 then 1
                        else CountId(a, id)
  {
    match FirstIndexOfId(a, palette.id)
    case Some(index) =>
      CountIdRemoveAt(a, index, id);
      CountIdInsertAt(RemoveAt(a, index), insertionIndex, palette, id);
    case None =>
      CountIdInsertAt(a, insertionIndex, palette, id);
      if id == palette.id {
        CountIdZero(a, id);
      }
  }

  lemma {:induction false} CountIdZero(a: seq<Palette>, id: int)
    requires forall k :: 0 <= k < |a| ==> a[k].id != id
    ensures CountId(a, id) == 0
  {
    if a != [] {
      assert forall k :: 0 <= k < |a[1..]| ==> a[1..][k].id == a[k + 1].id;
      CountIdZero(a[1..], id);
    }
  }

  /** The list `append(_:)` leaves behind: an existing copy is removed and the
      palette appended, except that a one-element list becomes `[palette]`. */
  function AppendAsWritten(a: seq<Palette>, palette: Palette): (r: seq<Palette>)
    requires |a| > 0
    ensures |r| > 0 && r[|r| - 1] == palette
  {
    match FirstIndexOfId(a, palette.id)
    case Some(index) =>
      if |a| == 1 then [palette]
      else RemoveAt(a, index) + [palette]
    case None =>
      a + [palette]
  }

  /** append of an absent id adds the palette as the last element. */
  lemma AppendAbsent(a: seq<Palette>, palette: Palette)
    requires |a| > 0
    requires forall k :: 0 <= k < |a| ==> a[k].id != palette.id
    ensures AppendAsWritten(a, palette) == a + [palette]
  {
  }

  /** append of a present id keeps the count, puts the palette last and
      removes the old copy, the others staying in order; on a one-element
      list the special case gives the same `[palette]`. Ids are counted as
      by the intended insert. */
  lemma AppendPresent(a: seq<Palette>, palette: Palette, index: nat, id: int)
    requires |a| > 0
    requires FirstIndexOfId(a, palette.id) == Some(index)
    ensures var r := AppendAsWritten(a, palette);
      && r == RemoveAt(a, index) + [palette]
      && |r| == |a|
      && (|a| == 1 ==> r == [palette])
      && CountId(r, id) == CountId(a, id)
  {
    var r := AppendAsWritten(a, palette);
    if |a| == 1 {
      assert RemoveAt(a, index) == [];
    }
    CountIdRemoveAt(a, index, id);
    CountIdConcat(RemoveAt(a, index), [palette], id);
    assert CountId([palette], id) == (if palette.id == id then 1 else 0);
  }

  // ---------------------------------------------------------------------
  // The store
  // ---------------------------------------------------------------------

  class PaletteStore {
    const name: string
    var palettes: seq<Palette>
    /** `_paletteIndex`, the raw cursor as last stored. */
    var storedIndex: int

    /** `palettes` is never empty. */
    ghost predicate Valid()
      reads this
    {
      |palettes| > 0
    }

    /** `init(name:)`: `stored` is what persistence holds under `name`; when
        it is empty the built-in palettes are assigned through the setter. */
    constructor (name: string, stored: seq<Palette>, builtins: seq<Palette>)
      requires |stored| > 0 || |builtins| > 0
      ensures Valid() && this.name == name && storedIndex == 0
      ensures palettes == if |stored| > 0 then stored else builtins
    {
      this.name := name;
      palettes := stored;
      storedIndex := 0;
      new;
      if |palettes| == 0 {
        SetPalettes(builtins);
      }
    }

    /** The `palettes` setter: an empty list is ignored. */
    method SetPalettes(newValue: seq<Palette>)
      modifies this`palettes
      ensures palettes == if |newValue| == 0 then old(palettes) else newValue
      ensures old(Valid()) ==> Valid()
    {
      if |newValue| > 0 {
        palettes := newValue;
      }
    }

    /** The `paletteIndex` getter: the stored cursor re-checked against the
        current count, so it is valid even after the list shrank. */
    function PaletteIndex(): (r: int)
      reads this
      requires Valid()
      ensures 0 <= r < |palettes|
      ensures r == storedIndex % |palettes|
    {
      BoundsCheckedIndex(storedIndex, |palettes|)
    }

    /** The `paletteIndex` setter stores the bounds-checked value. */
    method SetPaletteIndex(newValue: int)
      requires Valid()
      modifies this`storedIndex
      ensures storedIndex == BoundsCheckedIndex(newValue, |palettes|)
      ensures PaletteIndex() == newValue % |palettes|
    {
      storedIndex := BoundsCheckedIndex(newValue, |palettes|);
      DivModUnique(storedIndex, |palettes|, 0, storedIndex);
    }

    /** `insert(_:at:)`; `at` defaults to the current `paletteIndex`. Every
        change of the list goes through the guarded setter. */
    method Insert(palette: Palette, at: Option<int>)
      requires Valid()
      modifies this`palettes
      ensures Valid()
      ensures palettes == InsertAsWritten(old(palettes), palette,
                            BoundsCheckedIndex(at.GetOr(old(PaletteIndex())), |old(palettes)|))
    {
      var insertionIndex := BoundsCheckedIndex(at.GetOr(PaletteIndex()), |palettes|);
      match FirstIndexOfId(palettes, palette.id)
      case Some(index) =>
        SetPalettes(MoveToOffset(palettes, index, insertionIndex));
        SetPalettes(ReplaceAt(palettes, insertionIndex, palette));
      case None =>
        SetPalettes(InsertAt(palettes, insertionIndex, palette));
    }

    /** `insert(name:emojis:at:)`; `id` is the identity the new palette
        receives on construction. */
    method InsertNamed(name: string, emojis: string, at: Option<int>, id: int)
      requires Valid()
      modifies this`palettes
      ensures Valid()
      ensures palettes == InsertAsWritten(old(palettes), Palette(id, name, emojis),
                            BoundsCheckedIndex(at.GetOr(old(PaletteIndex())), |old(palettes)|))
    {
      Insert(Palette(id, name, emojis), at);
    }

    /** `append(_:)`. For more than one palette, removal and appending are
        two separate assignments through the setter. */
    method Append(palette: Palette)
      requires Valid()
      modifies this`palettes
      ensures Valid()
      ensures palettes == AppendAsWritten(old(palettes), palette)
    {
      match FirstIndexOfId(palettes, palette.id)
      case Some(index) =>
        if |palettes| == 1 {
          SetPalettes([palette]);
        } else {
          SetPalettes(RemoveAt(palettes, index));
          SetPalettes(palettes + [palette]);
        }
      case None =>
        SetPalettes(palettes + [palette]);
    }

    /** `append(name:emojis:)` */
    method AppendNamed(name: string, emojis: string, id: int)
      requires Valid()
      modifies this`palettes
      ensures Valid()
      ensures palettes == AppendAsWritten(old(palettes), Palette(id, name, emojis))
    {
      Append(Palette(id, name, emojis));
    }
  }
}
