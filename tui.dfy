/** The click-curation buffer of the terminal UI: a newest-first list of
    distinct clicks, the set of signatures seen so far, the selected indices
    and the cursor. The pure functions below specify each operation on a
    `Buffer` value; class `ClickUI` performs the same operations in place. */
module Tui {
  import opened Values

  /** The deduplication key of a click. */
  datatype Signature = Signature(text: Value, href: Value, selector: Value, xpathSelector: Value)

  /** The signature of a click: its four identifying attributes, each `None`
      when absent. */
  function SigOf(item: Item): (r: Signature)
    ensures r.text == (if "text" in item then item["text"] else Null)
    ensures r.href == (if "href" in item then item["href"] else Null)
    ensures r.selector == (if "selector" in item then item["selector"] else Null)
    ensures r.xpathSelector == (if "xpathSelector" in item then item["xpathSelector"] else Null)
  {
    Signature(Get(item, "text"), Get(item, "href"), Get(item, "selector"), Get(item, "xpathSelector"))
  }

  predicate IsSigKey(k: string)
  {
    k == "text" || k == "href" || k == "selector" || k == "xpathSelector"
  }

  /** Attributes other than the four signature keys never affect the signature. */
  lemma SigIgnoresOtherKeys(item: Item, k: string, v: Value)
    requires !IsSigKey(k)
    ensures SigOf(item[k := v]) == SigOf(item)
    ensures SigOf(item - {k}) == SigOf(item)
  {
  }

  /** Two clicks are duplicates exactly when they agree, with `None` for a
      missing key, on all four signature keys. */
  lemma SameSignature(a: Item, b: Item)
    ensures SigOf(a) == SigOf(b) <==> forall k :: IsSigKey(k) ==> Get(a, k) == Get(b, k)
  {
  }

  /** A signature can be looked up in a set only if all four parts hash. */
  predicate SigHashable(s: Signature)
  {
    Hashable(s.text) && Hashable(s.href) && Hashable(s.selector) && Hashable(s.xpathSelector)
  }

  const NoText: Value := Str("[no text]")

  /** The text the list shows for a click: the link target when the click has
      both a text and a different link, otherwise the first of text and link
      that is present, otherwise a placeholder. */
  function Label(item: Item): (r: Value)
    ensures Truthy(r)
    ensures Truthy(Get(item, "text")) && Truthy(Get(item, "href")) && Get(item, "text") != Get(item, "href")
            ==> r == Get(item, "href")
    ensures Truthy(Get(item, "text")) && (!Truthy(Get(item, "href")) || Get(item, "text") == Get(item, "href"))
            ==> r == Get(item, "text")
    ensures !Truthy(Get(item, "text")) && Truthy(Get(item, "href")) ==> r == Get(item, "href")
    ensures !Truthy(Get(item, "text")) && !Truthy(Get(item, "href")) ==> r == NoText
  {
    var text := Get(item, "text");
    var href := Get(item, "href");
    if Truthy(text) && Truthy(href) && text != href then href
    else if Truthy(text) then text
    else if Truthy(href) then href
    else NoText
  }

  /** The state of the curation buffer. */
  datatype Buffer = Buffer(items: seq<Item>, itemsSig: set<Signature>, selected: set<nat>, cursor: nat)

  const Empty: Buffer := Buffer([], {}, {}, 0)

  ghost predicate SigsDistinct(items: seq<Item>)
  {
    forall i, j :: 0 <= i < j < |items| ==> SigOf(items[i]) != SigOf(items[j])
  }

  ghost function SigSet(items: seq<Item>): set<Signature>
  {
    set x | x in items :: SigOf(x)
  }

  /** No two clicks share a signature, and the seen set is exactly their signatures. */
  ghost predicate SigInv(b: Buffer)
  {
    SigsDistinct(b.items) && SigSet(b.items) == b.itemsSig
  }

  /** Every selected index names a click, and the cursor is on a click (or 0 when empty). */
  ghost predicate IndexInv(b: Buffer)
  {
    && (forall i :: i in b.selected ==> i < |b.items|)
    && (if b.items == [] then b.cursor == 0 else b.cursor < |b.items|)
  }

  ghost predicate Inv(b: Buffer)
  {
    SigInv(b) && IndexInv(b)
  }

  function Shifted(sel: set<nat>): set<nat>
  {
    set i | i in sel :: i + 1
  }

  /** One step of the event worker: a click with a new, hashable signature
      goes to the front and every selected index moves up by one; any other
      click is dropped. */
  function Ingest(b: Buffer, data: Item): Buffer
  {
    var sig := SigOf(data);
    if !SigHashable(sig) || sig in b.itemsSig then b
    else b.(items := [data] + b.items, itemsSig := b.itemsSig + {sig}, selected := Shifted(b.selected))
  }

  /** The event worker over a sequence of clicks, in arrival order. */
  function IngestAll(b: Buffer, events: seq<Item>): Buffer
    decreases |events|
  {
    if events == [] then b else IngestAll(Ingest(b, events[0]), events[1..])
  }

  function MoveUp(b: Buffer): Buffer
  {
    if b.cursor > 0 then b.(cursor := b.cursor - 1) else b
  }

  function MoveDown(b: Buffer): Buffer
  {
    if b.cursor < |b.items| - 1 then b.(cursor := b.cursor + 1) else b
  }

  /** The key handler: "up" and "down" move the cursor, other keys do nothing. */
  function KeyPressed(b: Buffer, key: string): Buffer
  {
    if key == "up" then MoveUp(b)
    else if key == "down" then MoveDown(b)
    else b
  }

  function Toggle(b: Buffer): Buffer
  {
    if b.cursor >= |b.items| then b
    else if b.cursor in b.selected then b.(selected := b.selected - {b.cursor})
    else b.(selected := b.selected + {b.cursor})
  }

  /** The selected indices below `n`, in ascending order (`sorted(selected)`
      filtered by `i < n`). */
  function Ascending(sel: set<nat>, n: nat): (r: seq<nat>)
    ensures forall k :: 0 <= k < |r| ==> r[k] < n && r[k] in sel
  {
    if n == 0 then [] else Ascending(sel, n - 1) + (if n - 1 in sel then [n - 1] else [])
  }

  /** The clicks at the given indices, in the order of the indices. */
  function Pick(items: seq<Item>, idx: seq<nat>): (r: seq<Item>)
    requires forall k :: 0 <= k < |idx| ==> idx[k] < |items|
    ensures |r| == |idx|
    ensures forall k :: 0 <= k < |idx| ==> r[k] == items[idx[k]]
  {
    if idx == [] then [] else Pick(items, idx[..|idx| - 1]) + [items[idx[|idx| - 1]]]
  }

  /** `s[::-1]`. */
  function Reverse<T>(s: seq<T>): (r: seq<T>)
    ensures |r| == |s|
    ensures forall k :: 0 <= k < |s| ==> r[k] == s[|s| - 1 - k]
  {
    if s == [] then [] else Reverse(s[1..]) + [s[0]]
  }

  /** What save-and-quit hands back: the selected clicks in ascending index
      order (newest first), reversed, so oldest first. */
  function Chosen(b: Buffer): seq<Item>
  {
    Reverse(Pick(b.items, Ascending(b.selected, |b.items|)))
  }

  function SaveMessage(b: Buffer): Message
  {
    Message(Exit, ItemList(Chosen(b)))
  }

  const QuitMessage: Message := Message(Exit, ItemList([]))

  // ---------------------------------------------------------------------------
  // Ingest

  /** A click with a new, hashable signature lands at index 0, the buffer grows
      by one, its signature is recorded, every selected index moves up by one
      and the cursor stays. */
  lemma IngestNew(b: Buffer, data: Item)
    requires SigHashable(SigOf(data)) && SigOf(data) !in b.itemsSig
    ensures var r := Ingest(b, data);
      && r.items[0] == data
      && r.items[1..] == b.items
      && |r.items| == |b.items| + 1
      && r.itemsSig == b.itemsSig + {SigOf(data)}
      && (forall i: nat :: i in r.selected <==> i > 0 && i - 1 in b.selected)
      && r.cursor == b.cursor
  {
  }

  /** A click whose signature was already seen, or cannot be hashed, changes nothing. */
  lemma IngestDropped(b: Buffer, data: Item)
    requires !SigHashable(SigOf(data)) || SigOf(data) in b.itemsSig
    ensures Ingest(b, data) == b
  {
  }

  /** Ingest keeps both the signature invariant and the index invariant. */
  lemma {:induction false} IngestPreservesInv(b: Buffer, data: Item)
    requires Inv(b)
    ensures Inv(Ingest(b, data))
  {
  }

  /** Ingesting a click keeps the same clicks selected: the shift of the
      selected indices follows the clicks as they move down the list. */
  lemma {:induction false} IngestKeepsSelectedClicks(b: Buffer, data: Item)
    requires IndexInv(b)
    ensures SelectedClicks(Ingest(b, data)) == SelectedClicks(b)
  {
    var sig := SigOf(data);
    if SigHashable(sig) && sig !in b.itemsSig {
      var r := Ingest(b, data);
      forall x | x in SelectedClicks(r)
        ensures x in SelectedClicks(b)
      {
        var i :| i in r.selected && i < |r.items| && r.items[i] == x;
        var i0 :| i0 in b.selected && i == i0 + 1;
        assert b.items[i0] == x;
      }
      forall x | x in SelectedClicks(b)
        ensures x in SelectedClicks(r)
      {
        var i :| i in b.selected && i < |b.items| && b.items[i] == x;
        assert i + 1 in r.selected;
        assert r.items[i + 1] == x;
      }
    }
  }

  /** The clicks the selection currently designates. */
  ghost function SelectedClicks(b: Buffer): set<Item>
  {
    set i | i in b.selected && i < |b.items| :: b.items[i]
  }

  /** Any sequence of clicks fed to a valid buffer leaves it valid: in
      particular no two clicks in it ever share a signature. */
  lemma {:induction false} IngestAllPreservesInv(b: Buffer, events: seq<Item>)
    requires Inv(b)
    ensures Inv(IngestAll(b, events))
    decreases |events|
  {
    if events != [] {
      IngestPreservesInv(b, events[0]);
      IngestAllPreservesInv(Ingest(b, events[0]), events[1..]);
    }
  }

  /** Ingesting never loses a click and never reorders the clicks already held:
      the old list is a suffix of the new one. */
  lemma {:induction false} IngestAllKeepsSuffix(b: Buffer, events: seq<Item>)
    ensures var r := IngestAll(b, events);
      |r.items| >= |b.items| && r.items[|r.items| - |b.items|..] == b.items
    decreases |events|
  {
    if events != [] {
      var b1 := Ingest(b, events[0]);
      IngestAllKeepsSuffix(b1, events[1..]);
      var r := IngestAll(b, events);
      assert b1.items[|b1.items| - |b.items|..] == b.items;
      assert r.items[|r.items| - |b1.items|..][|b1.items| - |b.items|..] == r.items[|r.items| - |b.items|..];
    }
  }

  // ---------------------------------------------------------------------------
  // Cursor and toggle

  /** "up" moves the cursor one step towards the top exactly when it is not
      already there; "down" one step towards the bottom exactly when it is not
      on the last click; every other key, and the end stops, change nothing. */
  lemma KeyPressedEffect(b: Buffer, key: string)
    ensures var r := KeyPressed(b, key);
      && r.items == b.items && r.itemsSig == b.itemsSig && r.selected == b.selected
      && (key == "up" && b.cursor > 0 ==> r.cursor == b.cursor - 1)
      && (key == "down" && b.cursor + 1 < |b.items| ==> r.cursor == b.cursor + 1)
      && (key == "up" && b.cursor == 0 ==> r == b)
      && (key == "down" && b.cursor + 1 >= |b.items| ==> r == b)
      && (key != "up" && key != "down" ==> r == b)
  {
  }

  /** Moving the cursor keeps the buffer valid. */
  lemma KeyPressedPreservesInv(b: Buffer, key: string)
    requires Inv(b)
    ensures Inv(KeyPressed(b, key))
  {
  }

  /** Toggle flips whether the cursor's index is selected, and nothing else;
      with the cursor past the end it does nothing. */
  lemma ToggleEffect(b: Buffer)
    ensures var r := Toggle(b);
      && r.items == b.items && r.itemsSig == b.itemsSig && r.cursor == b.cursor
      && (b.cursor >= |b.items| ==> r == b)
      && (b.cursor < |b.items| ==> (b.cursor in r.selected <==> b.cursor !in b.selected))
      && (forall i :: i != b.cursor ==> (i in r.selected <==> i in b.selected))
  {
  }

  /** Two toggles at the same cursor restore the selection. */
  lemma ToggleTwice(b: Buffer)
    ensures Toggle(Toggle(b)) == b
  {
  }

  /** Toggling keeps the buffer valid. */
  lemma TogglePreservesInv(b: Buffer)
    requires Inv(b)
    ensures Inv(Toggle(b))
  {
  }

  // ---------------------------------------------------------------------------
  // Finalising

  ghost function Below(sel: set<nat>, n: nat): set<nat>
  {
    set i | i in sel && i < n
  }

  /** `Ascending` is `sorted()` of the selected indices below `n`: strictly
      increasing ... */
  lemma {:induction false} AscendingIncreasing(sel: set<nat>, n: nat)
    ensures forall j, k :: 0 <= j < k < |Ascending(sel, n)| ==> Ascending(sel, n)[j] < Ascending(sel, n)[k]
  {
    if n > 0 {
      AscendingIncreasing(sel, n - 1);
      var prev := Ascending(sel, n - 1);
      var r := Ascending(sel, n);
      forall j, k | 0 <= j < k < |r|
        ensures r[j] < r[k]
      {
        assert r[j] == prev[j] && prev[j] < n - 1;
        if k == |prev| {
          assert r[k] == n - 1;
        } else {
          assert r[k] == prev[k] && prev[j] < prev[k];
        }
      }
    }
  }

  /** ... and it lists every one of them. */
  lemma {:induction false} AscendingComplete(sel: set<nat>, n: nat)
    ensures forall i :: i in sel && i < n ==> i in Ascending(sel, n)
  {
    if n > 0 {
      AscendingComplete(sel, n - 1);
    }
  }

  /** As many indices as there are selected indices below `n`. */
  lemma {:induction false} AscendingLength(sel: set<nat>, n: nat)
    ensures |Ascending(sel, n)| == |Below(sel, n)|
  {
    if n == 0 {
      assert Below(sel, 0) == {};
    } else {
      AscendingLength(sel, n - 1);
      if n - 1 in sel {
        assert Below(sel, n) == Below(sel, n - 1) + {n - 1};
      } else {
        assert Below(sel, n) == Below(sel, n - 1);
      }
    }
  }

  /** Save-and-quit returns exactly one click per selected index (none is
      filtered out while the indices are in range), oldest first: position `k`
      holds the click at the `k`-th largest selected index. */
  lemma ChosenSpec(b: Buffer)
    requires IndexInv(b)
    ensures var idx := Ascending(b.selected, |b.items|);
      && |Chosen(b)| == |b.selected|
      && (forall k :: 0 <= k < |idx| ==> Chosen(b)[k] == b.items[idx[|idx| - 1 - k]])
  {
    var idx := Ascending(b.selected, |b.items|);
    AscendingLength(b.selected, |b.items|);
    assert Below(b.selected, |b.items|) == b.selected;
    var p := Pick(b.items, idx);
    assert Chosen(b) == Reverse(p);
  }

  /** The clicks save-and-quit returns are exactly the selected clicks. */
  lemma ChosenElements(b: Buffer)
    requires IndexInv(b)
    ensures forall x :: x in Chosen(b) <==> x in SelectedClicks(b)
  {
    var idx := Ascending(b.selected, |b.items|);
    var p := Pick(b.items, idx);
    var c := Reverse(p);
    assert Chosen(b) == c;
    forall x | x in c
      ensures x in SelectedClicks(b)
    {
      var k :| 0 <= k < |c| && c[k] == x;
      var i := idx[|idx| - 1 - k];
      assert p[|idx| - 1 - k] == b.items[i];
    }
    AscendingComplete(b.selected, |b.items|);
    forall x | x in SelectedClicks(b)
      ensures x in c
    {
      var i :| i in b.selected && i < |b.items| && b.items[i] == x;
      var j :| 0 <= j < |idx| && idx[j] == i;
      assert c[|idx| - 1 - j] == p[j];
    }
  }

  lemma AscendingZeroTwo()
    ensures Ascending({0, 2}, 3) == [0, 2]
  {
  }

  /** The reversal of display order: with clicks [e0, e1, e2] shown newest
      first and indices {0, 2} selected, save returns [e2, e0]. */
  lemma ChosenReversesDisplayOrder(e0: Item, e1: Item, e2: Item, sig: set<Signature>, cursor: nat)
    ensures Chosen(Buffer([e0, e1, e2], sig, {0, 2}, cursor)) == [e2, e0]
  {
    AscendingZeroTwo();
    var p := Pick([e0, e1, e2], [0, 2]);
    assert |p| == 2 && p[0] == e0 && p[1] == e2;
    var r := Reverse(p);
    assert r == [e2, e0];
  }

  // ---------------------------------------------------------------------------
  // The UI object

  class ClickUI {
    var items: seq<Item>
    var itemsSig: set<Signature>
    var selected: set<nat>
    var cursor: nat

    ghost function State(): Buffer
      reads this
    {
      Buffer(items, itemsSig, selected, cursor)
    }

    ghost predicate Valid()
      reads this
    {
      Inv(State())
    }

    constructor ()
      ensures State() == Empty
      ensures Valid()
    {
      items := [];
      itemsSig := {};
      selected := {};
      cursor := 0;
    }

    /** One click taken from the event queue. */
    method IngestClick(data: Item)
      modifies this
      requires Valid()
      ensures State() == Ingest(old(State()), data)
      ensures Valid()
    {
      var sig := SigOf(data);
      // An unhashable signature raises TypeError at the membership test,
      // which skips the click.
      if SigHashable(sig) && sig !in itemsSig {
        itemsSig := itemsSig + {sig};
        items := [data] + items;
        selected := set i | i in selected :: i + 1;
      }
      IngestPreservesInv(old(State()), data);
    }

    /** The event worker, draining the clicks queued so far in FIFO order. */
    method EventWorker(events: seq<Item>)
      modifies this
      requires Valid()
      ensures State() == IngestAll(old(State()), events)
      ensures Valid()
    {
      var k := 0;
      while k < |events|
        invariant 0 <= k <= |events|
        invariant IngestAll(State(), events[k..]) == IngestAll(old(State()), events)
        invariant Valid()
      {
        assert events[k..][1..] == events[k + 1..];
        IngestClick(events[k]);
        k := k + 1;
      }
    }

    /** The up/down key handler. */
    method OnKey(key: string)
      modifies this`cursor
      requires Valid()
      ensures State() == KeyPressed(old(State()), key)
      ensures Valid()
    {
      if key == "up" {
        if cursor > 0 {
          cursor := cursor - 1;
        }
      } else if key == "down" {
        if cursor < |items| - 1 {
          cursor := cursor + 1;
        }
      }
    }

    method ActionToggle()
      modifies this`selected
      requires Valid()
      ensures State() == Toggle(old(State()))
      ensures Valid()
    {
      if cursor >= |items| {
        return;
      }
      if cursor in selected {
        selected := selected - {cursor};
      } else {
        selected := selected + {cursor};
      }
    }

    /** Save-and-quit: the message put on the result queue. Walking the
        indices upwards and keeping the selected ones is `sorted(selected)`
        restricted to indices in range. */
    method ActionSaveQuitApp() returns (m: Message)
      ensures m == SaveMessage(State())
    {
      var chosen: seq<Item> := [];
      var i := 0;
      while i < |items|
        invariant 0 <= i <= |items|
        invariant chosen == Pick(items, Ascending(selected, i))
      {
        if i in selected {
          var idx := Ascending(selected, i);
          assert (idx + [i])[..|idx|] == idx;
          chosen := chosen + [items[i]];
        }
        i := i + 1;
      }
      m := Message(Exit, ItemList(Reverse(chosen)));
    }

    /** Plain quit: an empty selection. */
    method ActionQuitApp() returns (m: Message)
      ensures m == Message(Exit, ItemList([]))
    {
      m := QuitMessage;
    }
  }
}
