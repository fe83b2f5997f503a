/**
 * The altar: an ordered entry list projected onto a fixed grid of frame slots
 * (renderAltar, public/script.js:238-288), and the detail view of one entry
 * (showDetail, public/script.js:184-213).
 */
module Altar {
  import opened Wrappers
  import opened Js

  /** How many frames the grid has, filled or not. */
  const MAX_SLOTS: nat := 12

  /** The picture shown when an entry has no photo, and in every empty slot. */
  const PLACEHOLDER: string := "assets/skull.svg"

  const ALTAR_IMAGE: string := "assets/altar.svg"

  /** A slot of the grid: an entry or nothing. */
  datatype Slot = Filled(entry: Object) | Empty

  /** What clicking a frame does: open the entry's detail view, or the create dialog. */
  datatype Click = OpenDetail(entry: Object) | OpenCreate

  /** A rendered frame slot: its image, alt text, hover tooltip, `empty` class and click action. */
  datatype Frame = Frame(image: string, alt: string, title: Option<string>, empty: bool, onClick: Click)

  /** A child of the altar element: a frame slot, or the altar picture laid over the frames. */
  datatype Node = FrameSlot(frame: Frame) | Background(image: string)

  /** Slot `i` holds `items[i]` when there is one. */
  function Projection(items: seq<Object>): seq<Slot>
  {
    seq(MAX_SLOTS, i requires 0 <= i < MAX_SLOTS => if i < |items| then Filled(items[i]) else Empty)
  }

  /** `${name} ${lastName || ''}`. */
  function DisplayName(e: Object): string
  {
    PropText(Prop(e, "name")) + " " + OrElse(Prop(e, "lastName"), "")
  }

  /** How a slot is drawn. */
  function FrameOf(s: Slot): Frame
  {
    match s
    case Filled(e) =>
      var named := Present(Prop(e, "name"));
      Frame(OrElse(Prop(e, "imageUrl"), PLACEHOLDER),
            if named then DisplayName(e) else "Memorial",
            if named then Some(DisplayName(e)) else None,
            false,
            OpenDetail(e))
    case Empty => Frame(PLACEHOLDER, "Empty frame", None, true, OpenCreate)
  }

  /** The altar element's children: one frame per slot, then the background. */
  function AltarOf(items: seq<Object>): seq<Node>
  {
    var slots := Projection(items);
    seq(MAX_SLOTS, i requires 0 <= i < MAX_SLOTS => FrameSlot(FrameOf(slots[i]))) + [Background(ALTAR_IMAGE)]
  }

  /** renderAltar: a counted loop that appends one frame slot per position, then the background. */
  method RenderAltar(items: seq<Object>) returns (altar: seq<Node>)
    ensures altar == AltarOf(items)
  {
    altar := [];
    for i := 0 to MAX_SLOTS
      invariant |altar| == i
      invariant forall j | 0 <= j < i :: altar[j] == FrameSlot(FrameOf(Projection(items)[j]))
    {
      var frame: Frame;
      if i < |items| {
        var item := items[i];
        var image := OrElse(Prop(item, "imageUrl"), PLACEHOLDER);
        var alt := if Present(Prop(item, "name")) then DisplayName(item) else "Memorial";
        var title: Option<string> := None;
        if Present(Prop(item, "name")) {
          title := Some(DisplayName(item));
        }
        frame := Frame(image, alt, title, false, OpenDetail(item));
      } else {
        frame := Frame(PLACEHOLDER, "Empty frame", None, true, OpenCreate);
      }
      altar := altar + [FrameSlot(frame)];
    }
    altar := altar + [Background(ALTAR_IMAGE)];
  }

  /** The entries of the filled slots, in slot order. */
  function FilledEntries(slots: seq<Slot>): seq<Object>
    decreases |slots|
  {
    if slots == [] then []
    else
      var last := slots[|slots| - 1];
      FilledEntries(slots[..|slots| - 1]) + if last.Filled? then [last.entry] else []
  }

  /** The number of empty slots. */
  function EmptyCount(slots: seq<Slot>): nat
    decreases |slots|
  {
    if slots == [] then 0
    else EmptyCount(slots[..|slots| - 1]) + if slots[|slots| - 1].Empty? then 1 else 0
  }

  function Min(a: nat, b: nat): nat
  {
    if a < b then a else b
  }

  /** The grid always has MAX_SLOTS slots, and slot `i` is filled with `items[i]` exactly when that entry exists. */
  lemma ProjectionSlots(items: seq<Object>, i: nat)
    requires i < MAX_SLOTS
    ensures |Projection(items)| == MAX_SLOTS
    ensures Projection(items)[i].Filled? <==> i < |items|
    ensures i < |items| ==> Projection(items)[i] == Filled(items[i])
  {
  }

  lemma {:induction false} ProjectionPrefix(items: seq<Object>, k: nat)
    requires k <= MAX_SLOTS
    ensures FilledEntries(Projection(items)[..k]) == items[..Min(|items|, k)]
    ensures EmptyCount(Projection(items)[..k]) == k - Min(|items|, k)
  {
    var slots := Projection(items);
    if k > 0 {
      ProjectionPrefix(items, k - 1);
      assert slots[..k][..k - 1] == slots[..k - 1];
      if k - 1 < |items| {
        assert items[..k] == items[..k - 1] + [items[k - 1]];
      }
    }
  }

  /**
   * Truncation and order: the filled slots hold exactly the first
   * min(|items|, MAX_SLOTS) entries, in input order, so an entry at index
   * MAX_SLOTS or beyond never appears; the other slots are empty.
   */
  lemma ProjectionTruncates(items: seq<Object>)
    ensures FilledEntries(Projection(items)) == items[..Min(|items|, MAX_SLOTS)]
    ensures |FilledEntries(Projection(items))| == Min(|items|, MAX_SLOTS)
    ensures EmptyCount(Projection(items)) == MAX_SLOTS - Min(|items|, MAX_SLOTS)
  {
    ProjectionPrefix(items, MAX_SLOTS);
    assert Projection(items)[..MAX_SLOTS] == Projection(items);
  }

  /**
   * The altar holds MAX_SLOTS frames and then the background; frame `i` shows
   * `items[i]` and opens its detail view when the entry exists, and is
   * otherwise an empty frame that opens the create dialog.
   */
  lemma AltarFrames(items: seq<Object>, i: nat)
    requires i < MAX_SLOTS
    ensures |AltarOf(items)| == MAX_SLOTS + 1
    ensures AltarOf(items)[MAX_SLOTS] == Background(ALTAR_IMAGE)
    ensures AltarOf(items)[i].FrameSlot?
    ensures i < |items| ==> AltarOf(items)[i].frame.onClick == OpenDetail(items[i]) && !AltarOf(items)[i].frame.empty
    ensures i >= |items| ==> AltarOf(items)[i].frame == Frame(PLACEHOLDER, "Empty frame", None, true, OpenCreate)
  {
  }

  /**
   * A filled frame's fallbacks: the photo, else the placeholder; the display
   * name, else "Memorial"; a tooltip only when the entry has a name.
   */
  lemma FilledFrameFallbacks(e: Object)
    ensures FrameOf(Filled(e)).image == if Present(Prop(e, "imageUrl")) then ToStr(e["imageUrl"]) else PLACEHOLDER
    ensures FrameOf(Filled(e)).alt == if Present(Prop(e, "name")) then DisplayName(e) else "Memorial"
    ensures FrameOf(Filled(e)).title.Some? <==> Present(Prop(e, "name"))
    ensures FrameOf(Filled(e)).title.Some? ==> FrameOf(Filled(e)).title.value == FrameOf(Filled(e)).alt
  {
  }

  /** The detail view of an entry: photo, alt text, heading, dates line and description. */
  datatype Detail = Detail(image: string, alt: string, heading: string, dates: string, description: string)

  /** A date as the detail view shows it: formatted when present, else "?". */
  function DateText(p: Option<Value>, format: Value -> string): string
  {
    if Present(p) then format(p.value) else "?"
  }

  /**
   * showDetail's template; `format` stands for `toLocaleDateString` in
   * `en-US`, UTC, with two-digit month and day.
   */
  function DetailOf(e: Object, format: Value -> string): Detail
  {
    Detail(OrElse(Prop(e, "imageUrl"), PLACEHOLDER),
           PropText(Prop(e, "name")),
           DisplayName(e),
           DateText(Prop(e, "birthDate"), format) + " - " + DateText(Prop(e, "deathDate"), format),
           OrElse(Prop(e, "description"), ""))
  }

  /** An absent (or empty) birth or death date shows as "?"; a present one is formatted. */
  lemma DetailDates(e: Object, format: Value -> string)
    ensures !Present(Prop(e, "birthDate")) ==> DetailOf(e, format).dates[..4] == "? - "
    ensures !Present(Prop(e, "deathDate")) ==>
      DetailOf(e, format).dates == DateText(Prop(e, "birthDate"), format) + " - ?"
    ensures !Present(Prop(e, "birthDate")) && Present(Prop(e, "deathDate")) ==>
      DetailOf(e, format).dates == "? - " + format(e["deathDate"])
    ensures Present(Prop(e, "birthDate")) && Present(Prop(e, "deathDate")) ==>
      DetailOf(e, format).dates == format(e["birthDate"]) + " - " + format(e["deathDate"])
  {
    var d := DetailOf(e, format).dates;
    if !Present(Prop(e, "birthDate")) {
      assert d == "?" + " - " + DateText(Prop(e, "deathDate"), format);
      assert d[..4] == "? - ";
    }
  }

  /**
   * One entry named Ana with a birth date and no death date: slot 0 shows Ana,
   * the detail view shows "?" for the death date, and the other eleven slots
   * are empty.
   */
  lemma SingleEntryScenario(format: Value -> string)
    ensures var ana := map["id" := Num("1"), "name" := Str("Ana"), "birthDate" := Str("1950-01-01T00:00:00.000Z")];
      && AltarOf([ana])[0] == FrameSlot(Frame(PLACEHOLDER, "Ana ", Some("Ana "), false, OpenDetail(ana)))
      && DetailOf(ana, format).dates == format(Str("1950-01-01T00:00:00.000Z")) + " - ?"
      && forall i | 1 <= i < MAX_SLOTS :: AltarOf([ana])[i].frame.empty
  {
    var ana := map["id" := Num("1"), "name" := Str("Ana"), "birthDate" := Str("1950-01-01T00:00:00.000Z")];
    assert Prop(ana, "lastName") == None && Prop(ana, "imageUrl") == None && Prop(ana, "deathDate") == None;
    assert Prop(ana, "name") == Some(Str("Ana"));
    assert DisplayName(ana) == "Ana ";
    assert Prop(ana, "birthDate") == Some(Str("1950-01-01T00:00:00.000Z"));
    var slots := Projection([ana]);
    assert slots[0] == Filled(ana);
    assert FrameOf(slots[0]) == Frame(PLACEHOLDER, "Ana ", Some("Ana "), false, OpenDetail(ana));
    forall i | 1 <= i < MAX_SLOTS ensures AltarOf([ana])[i].frame.empty {
      assert slots[i] == Empty;
      assert AltarOf([ana])[i] == FrameSlot(FrameOf(slots[i]));
    }
  }
}
