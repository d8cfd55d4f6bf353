/** Reference counts of GPU images shared by several caches. */
module ImageRegistry {
  import opened Common

  type ImageId = nat

  // A slot of one of the caches.
  datatype Slot = Slot(cache: nat, key: string)

  type Slots = map<Slot, ImageId>
  type Refs = map<ImageId, nat>

  // ----- Counting slots -----

  function Holders(slots: Slots, image: ImageId): set<Slot> {
    set s | s in slots && slots[s] == image
  }

  function CountOf(refs: Refs, image: ImageId): nat {
    if image in refs then refs[image] else 0
  }

  // The registry agrees with the caches: every image is counted once per slot that holds it,
  // and only held images are registered.
  ghost predicate Agree(refs: Refs, slots: Slots) {
    && (forall image :: CountOf(refs, image) == |Holders(slots, image)|)
    && (forall image :: image in refs ==> refs[image] > 0)
  }

  lemma HoldersAfterInsert(slots: Slots, s: Slot, image: ImageId, other: ImageId)
    requires s !in slots
    ensures |Holders(slots[s := image], other)| == |Holders(slots, other)| + if other == image then 1 else 0
  {
    if other == image {
      assert Holders(slots[s := image], other) == Holders(slots, other) + {s};
    } else {
      assert Holders(slots[s := image], other) == Holders(slots, other);
    }
  }

  lemma HoldersAfterRemove(slots: Slots, s: Slot, other: ImageId)
    requires s in slots
    ensures |Holders(slots - {s}, other)| + (if other == slots[s] then 1 else 0) == |Holders(slots, other)|
  {
    if other == slots[s] {
      assert Holders(slots - {s}, other) + {s} == Holders(slots, other);
    } else {
      assert Holders(slots - {s}, other) == Holders(slots, other);
    }
  }

  lemma HeldIffHolders(slots: Slots, image: ImageId)
    ensures |Holders(slots, image)| == 0 <==> image !in slots.Values
  {
    if image in slots.Values {
      var s :| s in slots && slots[s] == image;
      assert s in Holders(slots, image);
    }
    if |Holders(slots, image)| != 0 {
      var s :| s in Holders(slots, image);
    }
  }

  // ----- The registry on its own -----

  function RetainIn(refs: Refs, image: ImageId): Refs {
    refs[image := CountOf(refs, image) + 1]
  }

  // Whether the release drops the image, and the counts afterwards.
  function ReleaseIn(refs: Refs, image: ImageId): (Refs, bool) {
    if image !in refs then (refs, false)
    else if refs[image] <= 1 then (refs - {image}, true)
    else (refs[image := refs[image] - 1], false)
  }

  // ----- One slot at a time -----

  // Releasing an image that is not registered does nothing.
  lemma UnregisteredRelease(refs: Refs, image: ImageId)
    ensures image !in refs ==> ReleaseIn(refs, image) == (refs, false)
  {
  }

  // Filling an empty slot and retaining its image keeps the agreement.
  lemma InsertAgrees(refs: Refs, slots: Slots, s: Slot, image: ImageId)
    requires Agree(refs, slots) && s !in slots
    ensures Agree(RetainIn(refs, image), slots[s := image])
  {
    forall other
      ensures CountOf(RetainIn(refs, image), other) == |Holders(slots[s := image], other)|
    {
      HoldersAfterInsert(slots, s, image, other);
    }
  }

  // Emptying a slot and releasing its image keeps the agreement, and the image is dropped
  // exactly when no slot of any cache holds it any more.
  lemma RemoveAgrees(refs: Refs, slots: Slots, s: Slot)
    requires Agree(refs, slots) && s in slots
    ensures
      var (after, dropped) := ReleaseIn(refs, slots[s]);
      Agree(after, slots - {s}) && (dropped <==> slots[s] !in (slots - {s}).Values)
  {
    var image := slots[s];
    var (after, dropped) := ReleaseIn(refs, image);
    HoldersAfterRemove(slots, s, image);
    assert CountOf(refs, image) == |Holders(slots, image)| > 0;
    forall other
      ensures CountOf(after, other) == |Holders(slots - {s}, other)|
    {
      HoldersAfterRemove(slots, s, other);
      assert CountOf(refs, other) == |Holders(slots, other)|;
    }
    HeldIffHolders(slots - {s}, image);
  }

  // Retaining the new image before releasing the old one: the old image is dropped exactly
  // when no slot holds it afterwards, so never when a slot is overwritten with its own image.
  lemma ReplaceAgrees(refs: Refs, slots: Slots, s: Slot, image: ImageId)
    requires Agree(refs, slots) && s in slots
    ensures
      var (after, dropped) := ReleaseIn(RetainIn(refs, image), slots[s]);
      Agree(after, slots[s := image]) && (dropped <==> slots[s] !in slots[s := image].Values)
  {
    var previous := slots[s];
    var (after, dropped) := ReleaseIn(RetainIn(refs, image), previous);
    assert slots[s := image] == (slots - {s})[s := image];
    forall other
      ensures CountOf(after, other) == |Holders(slots[s := image], other)|
    {
      HoldersAfterRemove(slots, s, other);
      HoldersAfterInsert(slots - {s}, s, image, other);
      HoldersAfterRemove(slots, s, previous);
      assert CountOf(refs, other) == |Holders(slots, other)|;
      assert CountOf(refs, previous) == |Holders(slots, previous)|;
    }
    HeldIffHolders(slots[s := image], previous);
    HeldIffHolders(slots, previous);
    assert CountOf(refs, previous) == |Holders(slots, previous)| > 0;
    assert CountOf(after, previous) == |Holders(slots[s := image], previous)|;
    assert dropped <==> CountOf(after, previous) == 0;
  }

  function CacheSlots(slots: Slots, cache: nat): set<Slot> {
    set s | s in slots && s.cache == cache
  }

  function Placed(cache: nat, images: map<string, ImageId>): Slots {
    map s | s in (set key | key in images :: Slot(cache, key)) :: images[s.key]
  }

  // Each image exactly once.
  ghost predicate Lists(drops: seq<ImageId>, images: iset<ImageId>) {
    Distinct(drops) && forall image :: image in drops <==> image in images
  }

  // The images no slot holds any more.
  ghost function NoLongerHeld(before: Slots, after: Slots): iset<ImageId> {
    iset image | image in before.Values && image !in after.Values
  }

  class Images {
    var refs: Refs
    var slots: Slots
    // Every `drop_image`, in order.
    var dropped: seq<ImageId>

    constructor ()
      ensures Valid() && slots == map[] && dropped == []
    {
      refs, slots, dropped := map[], map[], [];
    }

    ghost predicate Valid()
      reads this
    {
      Agree(refs, slots)
    }

    method Retain(image: ImageId)
      modifies this`refs
      ensures refs == RetainIn(old(refs), image)
    {
      refs := refs[image := (if image in refs then refs[image] else 0) + 1];
    }

    method Release(image: ImageId)
      modifies this`refs, this`dropped
      ensures refs == ReleaseIn(old(refs), image).0
      ensures dropped == if ReleaseIn(old(refs), image).1 then old(dropped) + [image] else old(dropped)
    {
      if image !in refs {
        return;
      }
      var count := if refs[image] == 0 then 0 else refs[image] - 1;
      if count == 0 {
        refs := refs - {image};
        dropped := dropped + [image];
      } else {
        refs := refs[image := count];
      }
    }

    method ReplaceInto(s: Slot, image: ImageId)
      requires Valid()
      modifies this
      ensures Valid()
      ensures slots == old(slots)[s := image]
      ensures dropped == old(dropped) +
        if s in old(slots) && old(slots)[s] !in slots.Values then [old(slots)[s]] else []
    {
      if s in slots {
        ReplaceAgrees(refs, slots, s, image);
      } else {
        InsertAgrees(refs, slots, s, image);
      }
      Retain(image);
      var previous := if s in slots then Some(slots[s]) else None;
      slots := slots[s := image];
      if previous.Some? {
        Release(previous.value);
      }
    }

    // `cache.remove` followed by the release of what it returned.
    method RemoveSlot(s: Slot)
      requires Valid() && s in slots
      modifies this
      ensures Valid()
      ensures slots == old(slots) - {s}
      ensures dropped == old(dropped) + if old(slots)[s] !in slots.Values then [old(slots)[s]] else []
    {
      RemoveAgrees(refs, slots, s);
      var image := slots[s];
      slots := slots - {s};
      Release(image);
    }

    method RemoveSlots(gone: set<Slot>) returns (ghost drops: seq<ImageId>)
      requires Valid() && gone <= slots.Keys
      modifies this
      ensures Valid()
      ensures slots == old(slots) - gone
      ensures dropped == old(dropped) + drops && Lists(drops, NoLongerHeld(old(slots), slots))
    {
      var remaining := gone;
      drops := [];
      while remaining != {}
        invariant remaining <= gone && remaining <= slots.Keys
        invariant Valid()
        invariant slots == old(slots) - (gone - remaining)
        invariant dropped == old(dropped) + drops && Lists(drops, NoLongerHeld(old(slots), slots))
        decreases remaining
      {
        var s :| s in remaining;
        ghost var before, image := slots, slots[s];
        RemoveSlot(s);
        remaining := remaining - {s};
        OneMoreGone(old(slots), before, s, drops);
        if image !in slots.Values {
          drops := drops + [image];
        }
        assert slots == old(slots) - (gone - remaining);
      }
    }

    method RetainOrRelease(cache: nat, keep: string -> bool) returns (ghost drops: seq<ImageId>)
      requires Valid()
      modifies this
      ensures Valid()
      ensures slots == old(slots) - set s | s in CacheSlots(old(slots), cache) && !keep(s.key)
      ensures dropped == old(dropped) + drops && Lists(drops, NoLongerHeld(old(slots), slots))
      ensures forall s :: s in slots <==> s in old(slots) && (s.cache != cache || keep(s.key))
      ensures forall s :: s in slots ==> slots[s] == old(slots)[s]
    {
      var toRemove := set s | s in CacheSlots(slots, cache) && !keep(s.key);
      drops := RemoveSlots(toRemove);
    }

    // Drains the cache, then fills it: an image held only by this cache is dropped even when
    // the new content holds it again.
    method ReplaceMap(cache: nat, images: map<string, ImageId>) returns (ghost drops: seq<ImageId>)
      requires Valid()
      modifies this
      ensures Valid()
      ensures slots == (old(slots) - CacheSlots(old(slots), cache)) + Placed(cache, images)
      ensures dropped == old(dropped) + drops
      ensures Lists(drops, NoLongerHeld(old(slots), old(slots) - CacheSlots(old(slots), cache)))
      ensures forall s :: s in slots <==> if s.cache == cache then s.key in images else s in old(slots)
      ensures forall s :: s in slots ==> slots[s] == if s.cache == cache then images[s.key] else old(slots)[s]
    {
      drops := RemoveSlots(CacheSlots(slots, cache));
      Fill(cache, images);
    }

    // Retains and inserts every image into an empty cache.
    method Fill(cache: nat, images: map<string, ImageId>)
      requires Valid() && forall s :: s in slots ==> s.cache != cache
      modifies this`refs, this`slots
      ensures Valid()
      ensures slots == old(slots) + Placed(cache, images)
    {
      var remaining := images.Keys;
      while remaining != {}
        invariant remaining <= images.Keys
        invariant Valid()
        invariant slots == old(slots) + Placed(cache, images - remaining)
        decreases remaining
      {
        var key :| key in remaining;
        PlacedAt(cache, images - remaining, Slot(cache, key));
        InsertNew(Slot(cache, key), images[key]);
        PlaceOneMore(old(slots), cache, images, remaining, key);
        remaining := remaining - {key};
      }
      assert images - {} == images;
    }

    method InsertNew(s: Slot, image: ImageId)
      requires Valid() && s !in slots
      modifies this`refs, this`slots
      ensures Valid()
      ensures slots == old(slots)[s := image]
    {
      InsertAgrees(refs, slots, s, image);
      Retain(image);
      slots := slots[s := image];
    }

    // Overwrites slot by slot: an image is dropped when it loses its last slot on the way, even
    // if a later slot takes it up again. Every image lost in the end is among the dropped ones.
    method ExtendWith(cache: nat, images: map<string, ImageId>) returns (ghost drops: seq<ImageId>)
      requires Valid()
      modifies this
      ensures Valid()
      ensures slots == old(slots) + Placed(cache, images)
      ensures dropped == old(dropped) + drops
      ensures Sandwiched(drops, NoLongerHeld(old(slots), slots),
                         NoLongerHeld(old(slots), old(slots) - Overwritten(old(slots), cache, images, {})))
      ensures forall s :: s in slots <==> s in old(slots) || (s.cache == cache && s.key in images)
      ensures forall s :: s in slots ==>
        slots[s] == if s.cache == cache && s.key in images then images[s.key] else old(slots)[s]
    {
      var remaining := images.Keys;
      drops := [];
      NothingPlaced(slots, cache, images);
      while remaining != {}
        invariant remaining <= images.Keys
        invariant Valid() && Extending(old(slots), slots, cache, images, remaining, drops)
        invariant dropped == old(dropped) + drops
        decreases remaining
      {
        var key :| key in remaining;
        ghost var lost := Overwrite(cache, images, key, old(slots), remaining, drops);
        drops := drops + lost;
        remaining := remaining - {key};
      }
      assert images - {} == images;
    }

    // One slot of an extension, `remaining` being the keys still to be placed before it.
    method Overwrite(cache: nat, images: map<string, ImageId>, key: string,
                     ghost start: Slots, ghost remaining: set<string>, ghost drops: seq<ImageId>)
      returns (ghost lost: seq<ImageId>)
      requires Valid() && remaining <= images.Keys && key in remaining
      requires Extending(start, slots, cache, images, remaining, drops)
      modifies this
      ensures Valid() && Extending(start, slots, cache, images, remaining - {key}, drops + lost)
      ensures dropped == old(dropped) + lost
    {
      var s := Slot(cache, key);
      ghost var before := slots;
      ReplaceInto(s, images[key]);
      PlaceOneMore(start, cache, images, remaining, key);
      OverwriteOneMore(start, before, cache, images, remaining, key, drops);
      lost := if s in before && before[s] !in slots.Values then [before[s]] else [];
      assert drops + [] == drops;
    }
  }

  // The slots of a cache that the images already placed have taken over.
  ghost function Overwritten(slots: Slots, cache: nat, images: map<string, ImageId>, remaining: set<string>): set<Slot> {
    set s | s in slots && s.cache == cache && s.key in images && s.key !in remaining
  }

  // Each image at most once: all of the lower set, and none outside the upper set.
  ghost predicate Sandwiched(drops: seq<ImageId>, lower: iset<ImageId>, upper: iset<ImageId>) {
    && Distinct(drops)
    && (forall image :: image in lower ==> image in drops)
    && (forall image :: image in drops ==> image in upper)
  }

  // An extension that has still to place the remaining images.
  ghost predicate Extending(start: Slots, slots: Slots, cache: nat, images: map<string, ImageId>, remaining: set<string>,
                            drops: seq<ImageId>)
  {
    && slots == start + Placed(cache, images - remaining)
    && Sandwiched(drops, NoLongerHeld(start, slots), NoLongerHeld(start, start - Overwritten(start, cache, images, remaining)))
  }

  lemma NothingPlaced(start: Slots, cache: nat, images: map<string, ImageId>)
    ensures Extending(start, start, cache, images, images.Keys, [])
  {
    assert images - images.Keys == map[];
    assert Placed(cache, map[]) == map[];
    assert Overwritten(start, cache, images, images.Keys) == {};
  }

  // An image dropped earlier is in no slot still to be overwritten, so it is not dropped again.
  lemma OverwriteOneMore(start: Slots, before: Slots, cache: nat, images: map<string, ImageId>, remaining: set<string>,
                         key: string, drops: seq<ImageId>)
    requires remaining <= images.Keys && key in remaining
    requires before == start + Placed(cache, images - remaining)
    requires Sandwiched(drops, NoLongerHeld(start, before), NoLongerHeld(start, start - Overwritten(start, cache, images, remaining)))
    ensures
      var s := Slot(cache, key);
      var after := before[s := images[key]];
      var more := if s in before && before[s] !in after.Values then drops + [before[s]] else drops;
      Sandwiched(more, NoLongerHeld(start, after), NoLongerHeld(start, start - Overwritten(start, cache, images, remaining - {key})))
  {
    var s := Slot(cache, key);
    var after := before[s := images[key]];
    var untouched := start - Overwritten(start, cache, images, remaining);
    var rest := start - Overwritten(start, cache, images, remaining - {key});
    PlacedAt(cache, images - remaining, s);
    assert rest == untouched - {s};
    forall x | x in rest
      ensures x in after && after[x] == rest[x]
    {
      PlacedAt(cache, images - remaining, x);
    }
    LosersGrow(start, before, after, untouched, rest, s, drops);
  }

  lemma LosersGrow(start: Slots, before: Slots, after: Slots, untouched: Slots, rest: Slots, s: Slot, drops: seq<ImageId>)
    requires Sandwiched(drops, NoLongerHeld(start, before), NoLongerHeld(start, untouched))
    requires s in before <==> s in untouched
    requires s in before ==> s in start && before[s] == start[s] == untouched[s]
    requires rest == untouched - {s}
    requires forall x :: x in rest ==> x in after && after[x] == rest[x]
    requires s in after && forall x :: x in before && x != s ==> x in after && after[x] == before[x]
    ensures
      Sandwiched(if s in before && before[s] !in after.Values then drops + [before[s]] else drops,
                 NoLongerHeld(start, after), NoLongerHeld(start, rest))
  {
    forall image | image in rest.Values
      ensures image in untouched.Values && image in after.Values
    {
      var x :| x in rest && rest[x] == image;
      assert untouched[x] == image && after[x] == image;
    }
    forall image | image in before.Values && image !in after.Values
      ensures s in before && image == before[s]
    {
      var x :| x in before && before[x] == image;
    }
    if s in before {
      assert untouched[s] == before[s] && start[s] == before[s];
      assert before[s] in untouched.Values && before[s] !in drops;
    }
  }

  lemma PlaceOneMore(start: Slots, cache: nat, images: map<string, ImageId>, remaining: set<string>, key: string)
    requires key in remaining && key in images
    ensures start + Placed(cache, images - (remaining - {key})) ==
            (start + Placed(cache, images - remaining))[Slot(cache, key) := images[key]]
  {
    var before, after := Placed(cache, images - remaining), Placed(cache, images - (remaining - {key}));
    forall s
      ensures s in after <==> s in before || s == Slot(cache, key)
      ensures s in before && s != Slot(cache, key) ==> after[s] == before[s]
    {
      PlacedAt(cache, images - remaining, s);
      PlacedAt(cache, images - (remaining - {key}), s);
    }
    PlacedAt(cache, images - (remaining - {key}), Slot(cache, key));
  }

  lemma PlacedAt(cache: nat, images: map<string, ImageId>, s: Slot)
    ensures s in Placed(cache, images) <==> s.cache == cache && s.key in images
    ensures s in Placed(cache, images) ==> Placed(cache, images)[s] == images[s.key]
  {
  }

  // Emptying one more slot loses its image exactly when no other slot holds it.
  lemma OneMoreGone(start: Slots, before: Slots, s: Slot, drops: seq<ImageId>)
    requires s in before && (forall x :: x in before ==> x in start && start[x] == before[x])
    requires Lists(drops, NoLongerHeld(start, before))
    ensures
      var after, image := before - {s}, before[s];
      Lists(if image !in after.Values then drops + [image] else drops, NoLongerHeld(start, after))
  {
    var after, image := before - {s}, before[s];
    assert image in before.Values && image in start.Values by {
      assert start[s] == image;
    }
    assert image !in drops;
    forall other
      ensures other in NoLongerHeld(start, after) <==>
        other in NoLongerHeld(start, before) || (other == image && image !in after.Values)
    {
      if other in before.Values && other != image {
        var x :| x in before && before[x] == other;
        assert x in after && after[x] == other;
      }
    }
  }
}
