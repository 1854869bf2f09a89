/**
 * The item pipelines that every yielded record goes through: validation
 * and clean-up of the record in place, duplicate tracking by normalised
 * name, and the writer's in-memory list of accepted records. Raising an
 * exception is modelled as an `Err` outcome; the item object is shared
 * with the caller, so its record is a field the pipelines may reassign.
 */
module Pipelines {
  import opened Optional
  import opened Text
  import opened Items

  // ---------------------------------------------------------------------
  // ValidationPipeline
  // ---------------------------------------------------------------------

  /** `s.startswith(('http://', 'https://'))`. */
  predicate IsHttpUrl(s: string) {
    IsPrefix("http://", s) || IsPrefix("https://", s)
  }

  /** How a name is shown in the error message: the string itself, or None. */
  function ShowName(name: Option<string>): string {
    match name
    case None => "None"
    case Some(n) => n
  }

  /** The name check of the validation pipeline: set, non-empty, and at least two characters once stripped. */
  predicate HasValidName(r: Record) {
    Truthy(r.name) && |Strip(r.name.value)| >= 2
  }

  /** The image check: set, non-empty, and an http or https URL. */
  predicate HasValidImage(r: Record) {
    Truthy(r.imageUrl) && IsHttpUrl(r.imageUrl.value)
  }

  /**
   * What `ValidationPipeline.process_item` does to a record: the error it
   * raises, or the record with name and description stripped and the
   * character type defaulted to "Unknown" and stripped.
   */
  function Validated(r: Record): (res: Result<Record>)
    ensures res.Ok? <==> HasValidName(r) && HasValidImage(r)
    ensures !HasValidName(r) ==> res == Err("Invalid name: " + ShowName(r.name))
    ensures HasValidName(r) && !Truthy(r.imageUrl) ==> res == Err("Image URL is required")
    ensures HasValidName(r) && Truthy(r.imageUrl) && !IsHttpUrl(r.imageUrl.value) ==> res == Err("Invalid image URL: " + r.imageUrl.value)
    ensures res.Ok? ==>
      && res.value.name == Some(Strip(r.name.value)) && |res.value.name.value| >= 2 && Trimmed(res.value.name.value)
      && res.value.description == Some(Strip(r.description.GetOr("")))
      && res.value.characterType == Some(Strip(r.characterType.GetOr("Unknown")))
      && res.value.imageUrl == r.imageUrl
      && res.value == r.(name := res.value.name, description := res.value.description, characterType := res.value.characterType)
  {
    if !Truthy(r.name) || |Strip(r.name.value)| < 2 then Err("Invalid name: " + ShowName(r.name))
    else if !Truthy(r.imageUrl) then Err("Image URL is required")
    else if !IsHttpUrl(r.imageUrl.value) then Err("Invalid image URL: " + r.imageUrl.value)
    else Ok(r.(
      name := Some(Strip(r.name.value)),
      description := Some(Strip(r.description.GetOr(""))),
      characterType := Some(Strip(r.characterType.GetOr("Unknown")))))
  }

  /** A validated record passes validation again, unchanged. */
  lemma ValidatedIdempotent(r: Record)
    requires Validated(r).Ok?
    ensures Validated(Validated(r).value) == Validated(r)
  {
    var v := Validated(r).value;
    StripIdempotent(r.name.value);
    StripIdempotent(r.description.GetOr(""));
    StripIdempotent(r.characterType.GetOr("Unknown"));
    assert v.(name := v.name, description := v.description, characterType := v.characterType) == v;
  }

  class ValidationPipeline {
    constructor () {}

    /**
     * `process_item`: raises, leaving the item as it was, or rewrites
     * name, description and character type in place and returns the item.
     */
    method ProcessItem(item: CharacterItem) returns (outcome: Result<CharacterItem>)
      modifies item
      ensures Validated(old(item.data)).Err? ==>
        outcome == Err(Validated(old(item.data)).message) && item.data == old(item.data)
      ensures Validated(old(item.data)).Ok? ==>
        outcome == Ok(item) && item.data == Validated(old(item.data)).value
    {
      var r := item.data;
      if !Truthy(r.name) || |Strip(r.name.value)| < 2 {
        return Err("Invalid name: " + ShowName(r.name));
      }
      if !Truthy(r.imageUrl) {
        return Err("Image URL is required");
      }
      var imageUrl := r.imageUrl.value;
      if !(IsPrefix("http://", imageUrl) || IsPrefix("https://", imageUrl)) {
        return Err("Invalid image URL: " + imageUrl);
      }
      item.data := item.data.(name := Some(Strip(item.data.name.value)));
      item.data := item.data.(description := Some(Strip(item.data.description.GetOr(""))));
      item.data := item.data.(characterType := Some(Strip(item.data.characterType.GetOr("Unknown"))));
      return Ok(item);
    }
  }

  // ---------------------------------------------------------------------
  // DuplicatesPipeline
  // ---------------------------------------------------------------------

  /** The name under which duplicates are recognised: `name.lower().strip()`. */
  function NameKey(name: string): string {
    Strip(Lower(name))
  }

  /** The seen-name set after the given names have been processed, in order. */
  function SeenNamesOf(names: seq<string>): set<string> {
    if names == [] then {} else SeenNamesOf(names[..|names| - 1]) + {NameKey(names[|names| - 1])}
  }

  /** The i-th processed name normalises to k. */
  predicate NamedAt(names: seq<string>, i: int, k: string) {
    0 <= i < |names| && NameKey(names[i]) == k
  }

  /** A key has been seen exactly when some processed name normalises to it. */
  lemma {:induction false} SeenNamesMembership(names: seq<string>, k: string)
    ensures k in SeenNamesOf(names) <==> exists i :: NamedAt(names, i, k)
  {
    if names != [] {
      var init := names[..|names| - 1];
      SeenNamesMembership(init, k);
      if k in SeenNamesOf(init) {
        var i :| NamedAt(init, i, k);
        assert NamedAt(names, i, k);
      }
      if NameKey(names[|names| - 1]) == k {
        assert NamedAt(names, |names| - 1, k);
      }
      if exists i :: NamedAt(names, i, k) {
        var i :| NamedAt(names, i, k);
        if i < |names| - 1 {
          assert NamedAt(init, i, k);
        }
      }
    }
  }

  /** Processing a name that is already known, in any spelling that normalises alike, adds nothing. */
  lemma SeenNamesRepeat(names: seq<string>, name: string)
    requires exists i :: NamedAt(names, i, NameKey(name))
    ensures SeenNamesOf(names + [name]) == SeenNamesOf(names)
  {
    SeenNamesMembership(names, NameKey(name));
    assert (names + [name])[..|names|] == names;
  }

  class DuplicatesPipeline {
    var seenNames: set<string>
    /** The names processed so far, in order. */
    ghost var processed: seq<string>

    ghost predicate Valid()
      reads this
    {
      seenNames == SeenNamesOf(processed)
    }

    constructor ()
      ensures Valid() && processed == [] && seenNames == {}
    {
      seenNames := {};
      processed := [];
    }

    /**
     * `process_item`: an item without a name raises KeyError; any other
     * item is returned as it is, and its normalised name is remembered
     * (a duplicate is reported, never dropped).
     */
    method ProcessItem(item: CharacterItem) returns (outcome: Result<CharacterItem>)
      requires Valid()
      modifies this
      ensures Valid()
      ensures item.data.name.None? ==>
        outcome == Err("KeyError: 'name'") && seenNames == old(seenNames) && processed == old(processed)
      ensures item.data.name.Some? ==>
        && outcome == Ok(item)
        && processed == old(processed) + [item.data.name.value]
        && seenNames == old(seenNames) + {NameKey(item.data.name.value)}
      ensures NameKey(item.data.name.GetOr("")) in old(seenNames) ==> seenNames == old(seenNames)
    {
      if item.data.name.None? {
        return Err("KeyError: 'name'");
      }
      var name := Strip(Lower(item.data.name.value));
      processed := processed + [item.data.name.value];
      assert processed[..|processed| - 1] == old(processed);
      if name in seenNames {
        return Ok(item);
      }
      seenNames := seenNames + {name};
      return Ok(item);
    }
  }

  // ---------------------------------------------------------------------
  // JsonWriterPipeline
  // ---------------------------------------------------------------------

  /** The writer stores a record when it has a name and an image URL. */
  predicate Storable(r: Record) {
    Truthy(r.name) && Truthy(r.imageUrl)
  }

  /** The records the writer has stored after the given records were processed, in order. */
  function StoredOf(records: seq<Record>): (r: seq<Record>)
    ensures |r| <= |records|
    ensures forall i :: 0 <= i < |r| ==> Storable(r[i]) && r[i] in records
  {
    if records == [] then []
    else if Storable(records[|records| - 1]) then StoredOf(records[..|records| - 1]) + [records[|records| - 1]]
    else StoredOf(records[..|records| - 1])
  }

  /** Storing distributes over consecutive batches, so order is kept. */
  lemma {:induction false} StoredOfAppend(a: seq<Record>, b: seq<Record>)
    ensures StoredOf(a + b) == StoredOf(a) + StoredOf(b)
    decreases |b|
  {
    if b == [] {
      assert a + b == a;
    } else {
      var b0 := b[..|b| - 1];
      StoredOfAppend(a, b0);
      assert (a + b)[..|a + b| - 1] == a + b0;
    }
  }

  /** Every storable record that was processed is stored. */
  lemma {:induction false} StoredOfComplete(records: seq<Record>, i: nat)
    requires i < |records| && Storable(records[i])
    ensures records[i] in StoredOf(records)
  {
    var init := records[..|records| - 1];
    if i < |records| - 1 {
      assert init[i] == records[i];
      StoredOfComplete(init, i);
    }
  }

  class JsonWriterPipeline {
    var items: seq<Record>
    /** The records offered to the writer so far, in order. */
    ghost var offered: seq<Record>

    ghost predicate Valid()
      reads this
    {
      items == StoredOf(offered)
    }

    constructor ()
      ensures Valid() && items == [] && offered == []
    {
      items := [];
      offered := [];
    }

    /**
     * `process_item`: appends a copy of the record when it has a name and
     * an image URL, and leaves the list alone otherwise; the item is
     * always returned.
     */
    method ProcessItem(item: CharacterItem) returns (returned: CharacterItem)
      requires Valid()
      modifies this
      ensures Valid()
      ensures returned == item
      ensures offered == old(offered) + [item.data]
      ensures Storable(item.data) ==> items == old(items) + [item.data]
      ensures !Storable(item.data) ==> items == old(items)
    {
      offered := offered + [item.data];
      assert offered[..|offered| - 1] == old(offered);
      if !Truthy(item.data.name) || !Truthy(item.data.imageUrl) {
        return item;
      }
      items := items + [item.data];
      return item;
    }
  }
}
