/** The form that creates or edits a space (src/pages/SpaceForm.tsx): the
    area-size codec, the amenity toggle, the bounded photo lists, loading a
    stored record and assembling the row that is saved. */
module SpaceForm {
  import opened Domain
  import opened Text
  import opened Seqs

  const DefaultAreaUnit: string := "ตร.ม."
  const DefaultPriceUnit: string := "บาท/เดือน"
  /** At most this many photos, stored and newly picked together. */
  const MaxImages: nat := 5

  /** The area as the form edits it: a number typed as text and a unit. */
  datatype Area = Area(value: string, unit: string)

  /** Reads the stored `area_size`: an empty or missing value gives an
      empty amount in the default unit; otherwise the text is split on
      spaces, and with at least two pieces the first two are the amount
      and the unit, while a single piece is the amount in the default unit. */
  function ParseArea(stored: Option<string>): (a: Area)
    ensures !Present(stored) ==> a == Area("", DefaultAreaUnit)
    ensures Present(stored) && |Split(stored.value, ' ')| >= 2 ==> ' ' !in a.value && ' ' !in a.unit
  {
    if !Present(stored) then Area("", DefaultAreaUnit)
    else
      var parts := Split(stored.value, ' ');
      if |parts| >= 2 then Area(parts[0], parts[1]) else Area(stored.value, DefaultAreaUnit)
  }

  /** `${areaValue} ${areaUnit}`. */
  function FormatArea(a: Area): string
  {
    a.value + " " + a.unit
  }

  /** A stored size without a space loads whole, in the default unit. */
  lemma ParseAreaWithoutSpace(stored: string)
    requires stored != [] && ' ' !in stored
    ensures ParseArea(Some(stored)) == Area(stored, DefaultAreaUnit)
  {
    SplitNoSeparator(stored, ' ');
  }

  /** Saving then loading gives back the amount and unit, as long as
      neither contains a space. */
  lemma AreaRoundTrip(a: Area)
    requires ' ' !in a.value && ' ' !in a.unit
    ensures ParseArea(Some(FormatArea(a))) == a
  {
    SplitAfterFirst(a.value, a.unit, ' ');
    SplitNoSeparator(a.unit, ' ');
  }

  /** Ticking an amenity: a listed one is removed (every copy of it), an
      unlisted one is appended. */
  function ToggleAmenity(list: seq<string>, item: string): seq<string>
  {
    if item in list then Filter(list, (i: string) => i != item) else list + [item]
  }

  /** Toggling flips the item's membership. */
  lemma ToggleFlipsItem(list: seq<string>, item: string)
    ensures item in ToggleAmenity(list, item) <==> item !in list
  {
    var r := ToggleAmenity(list, item);
    if item in list {
      assert forall k :: 0 <= k < |r| ==> r[k] != item;
    }
  }

  /** Toggling leaves every other amenity's membership as it was. */
  lemma ToggleKeepsOthers(list: seq<string>, item: string, other: string)
    requires other != item
    ensures other in ToggleAmenity(list, item) <==> other in list
  {
    if item in list && other in list {
      var k :| 0 <= k < |list| && list[k] == other;
    }
  }

  /** Toggling an unlisted amenity twice gives back the very same list. */
  lemma {:induction false} ToggleTwiceRestores(list: seq<string>, item: string)
    requires item !in list
    ensures ToggleAmenity(ToggleAmenity(list, item), item) == list
  {
    var p := (i: string) => i != item;
    assert item in list + [item];
    FilterAppend(list, [item], p);
    FilterKeepsAll(list, p);
    assert Filter([item], p) == [];
  }

  /** Each new photo beside its preview. */
  function Zip<A, B>(files: seq<A>, previews: seq<B>): (pairs: seq<(A, B)>)
    requires |files| == |previews|
    ensures |pairs| == |files|
    ensures forall k :: 0 <= k < |pairs| ==> pairs[k] == (files[k], previews[k])
  {
    seq(|files|, k requires 0 <= k < |files| => (files[k], previews[k]))
  }

  /** Removing position `i` from two lists of the same length keeps them
      the same length and removes exactly that photo together with its
      preview: every other photo stays beside its own preview. */
  lemma RemoveAtKeepsPairs<A, B>(files: seq<A>, previews: seq<B>, i: int)
    requires |files| == |previews|
    ensures |RemoveAt(files, i)| == |RemoveAt(previews, i)|
    ensures Zip(RemoveAt(files, i), RemoveAt(previews, i)) == RemoveAt(Zip(files, previews), i)
  {
  }

  /** The URLs of the uploads that succeeded, in upload order; a failed
      upload (`None`) is skipped. */
  function Successes(outcomes: seq<Option<string>>): (urls: seq<string>)
    ensures |urls| <= |outcomes|
    ensures forall k :: 0 <= k < |urls| ==> Some(urls[k]) in outcomes
  {
    if outcomes == [] then []
    else
      var last := outcomes[|outcomes| - 1];
      Successes(outcomes[..|outcomes| - 1]) + (if last.Some? then [last.value] else [])
  }

  /** When every upload succeeds, every file contributes its URL. */
  lemma {:induction false} SuccessesAllOk(outcomes: seq<Option<string>>)
    requires forall k :: 0 <= k < |outcomes| ==> outcomes[k].Some?
    ensures |Successes(outcomes)| == |outcomes|
    ensures forall k :: 0 <= k < |outcomes| ==> Successes(outcomes)[k] == outcomes[k].value
  {
    if outcomes != [] {
      SuccessesAllOk(outcomes[..|outcomes| - 1]);
    }
  }

  /** The text and list fields of the form (the price is not modelled). */
  datatype FormData = FormData(
    title: string, description: string, address: string, tags: string,
    farmType: string, availableFrom: string, availableTo: string, rules: string,
    amenities: seq<string>, priceUnit: string, sunlight: string)

  /** The blank form of a new space. */
  const BlankForm: FormData := FormData("", "", "", "", "", "", "", "", [], DefaultPriceUnit, "")

  /** The columns of a stored space that the form loads; nullable columns
      are options. */
  datatype StoredSpace = StoredSpace(
    title: string, description: Option<string>, address: string, tags: Option<string>,
    farmType: Option<string>, availableFrom: Option<string>, availableTo: Option<string>,
    rules: Option<string>, amenities: Option<seq<string>>, priceUnit: Option<string>,
    sunlight: Option<string>, areaSize: Option<string>, gallery: Option<seq<string>>,
    imageUrl: Option<string>)

  /** `x || fallback` for a text column. */
  function OrDefault(s: Option<string>, fallback: string): (r: string)
    ensures Present(s) ==> r == s.value
    ensures !Present(s) ==> r == fallback
  {
    if Present(s) then s.value else fallback
  }

  /** The form filled from a stored space. */
  function FormFromRecord(rec: StoredSpace): FormData
  {
    FormData(
      rec.title, OrDefault(rec.description, ""), rec.address, OrDefault(rec.tags, ""),
      OrDefault(rec.farmType, ""), OrDefault(rec.availableFrom, ""), OrDefault(rec.availableTo, ""),
      OrDefault(rec.rules, ""), if rec.amenities.Some? then rec.amenities.value else [],
      OrDefault(rec.priceUnit, DefaultPriceUnit), OrDefault(rec.sunlight, ""))
  }

  /** Loading never leaves the price unit empty; a stored space whose
      optional columns are all null loads as the blank form with its title
      and address filled in. */
  lemma LoadFillsDefaults(rec: StoredSpace)
    ensures FormFromRecord(rec).priceUnit != []
    ensures FormFromRecord(rec).priceUnit == DefaultPriceUnit <==> !Present(rec.priceUnit) || rec.priceUnit.value == DefaultPriceUnit
    ensures rec.amenities.None? ==> FormFromRecord(rec).amenities == []
    ensures rec.description.None? && rec.tags.None? && rec.farmType.None? && rec.availableFrom.None?
      && rec.availableTo.None? && rec.rules.None? && rec.amenities.None? && rec.priceUnit.None? && rec.sunlight.None?
      ==> FormFromRecord(rec) == BlankForm.(title := rec.title, address := rec.address)
  {
  }

  /** The photos an edit starts from: the stored gallery whenever the column
      is not null (even an empty one), otherwise the main image if any. */
  function LoadedGallery(gallery: Option<seq<string>>, imageUrl: Option<string>): (g: seq<string>)
    ensures gallery.Some? ==> g == gallery.value
    ensures gallery.None? ==> (g == [] <==> !Present(imageUrl))
  {
    if gallery.Some? then gallery.value
    else if Present(imageUrl) then [imageUrl.value]
    else []
  }

  /** The row written to `urban_farm_spaces` (the price is not modelled). */
  datatype SpaceRow = SpaceRow(form: FormData, areaSize: string, ownerId: string, imageUrl: Option<string>, gallery: seq<string>)

  datatype SubmitResult = MissingRequired | Save(row: SpaceRow)

  /** A row saved by the form loads back with the same photos, whatever
      its main image, and, when neither has a space, the same area. */
  lemma SavedRowReloads(row: SpaceRow, area: Area)
    requires row.areaSize == FormatArea(area) && ' ' !in area.value && ' ' !in area.unit
    ensures LoadedGallery(Some(row.gallery), row.imageUrl) == row.gallery
    ensures ParseArea(Some(row.areaSize)) == area
  {
    AreaRoundTrip(area);
  }

  /** The form's state. `files[k]` is a newly picked photo and
      `previews[k]` its preview. */
  class SpaceFormPage {
    var form: FormData
    var area: Area
    var files: seq<string>
    var previews: seq<string>
    var existing: seq<string>

    /** The two lists of new photos stay in step. */
    predicate Valid()
      reads this
    {
      |files| == |previews|
    }

    function ImageCount(): nat
      reads this
    {
      |files| + |existing|
    }

    constructor ()
      ensures Valid()
      ensures form == BlankForm && area == Area("", DefaultAreaUnit)
      ensures files == [] && previews == [] && existing == []
    {
      form := BlankForm;
      area := Area("", DefaultAreaUnit);
      files, previews, existing := [], [], [];
    }

    /** `fetchSpace`: when the record is found, the area, the fields and the
        stored photos are loaded; otherwise nothing changes. */
    method Load(found: Option<StoredSpace>)
      modifies this`form, this`area, this`existing
      ensures found.None? ==> form == old(form) && area == old(area) && existing == old(existing)
      ensures found.Some? ==>
        && area == ParseArea(found.value.areaSize)
        && form == FormFromRecord(found.value)
        && existing == LoadedGallery(found.value.gallery, found.value.imageUrl)
    {
      if found.Some? {
        var rec := found.value;
        area := ParseArea(rec.areaSize);
        form := FormFromRecord(rec);
        existing := LoadedGallery(rec.gallery, rec.imageUrl);
      }
    }

    /** `handleAmenityChange`. */
    method ToggleAmenityField(item: string)
      modifies this`form
      ensures form == old(form).(amenities := ToggleAmenity(old(form).amenities, item))
      ensures item in form.amenities <==> item !in old(form).amenities
      ensures forall other :: other != item ==> (other in form.amenities <==> other in old(form).amenities)
    {
      form := form.(amenities := ToggleAmenity(form.amenities, item));
      ToggleFlipsItem(old(form).amenities, item);
      forall other | other != item
        ensures other in form.amenities <==> other in old(form).amenities
      {
        ToggleKeepsOthers(old(form).amenities, item, other);
      }
    }

    /** `handleImageChange`: the picked photos are refused when they would
        bring the total above the limit; otherwise they and their previews
        are appended, so an accepted pick never exceeds the limit. */
    method AddImages(picked: seq<string>, urls: seq<string>) returns (accepted: bool)
      requires Valid() && |urls| == |picked|
      modifies this`files, this`previews
      ensures Valid()
      ensures accepted <==> |picked| + old(ImageCount()) <= MaxImages
      ensures accepted ==> files == old(files) + picked && previews == old(previews) + urls && ImageCount() <= MaxImages
      ensures !accepted ==> files == old(files) && previews == old(previews)
    {
      if |picked| + |files| + |existing| > MaxImages {
        return false;
      }
      files := files + picked;
      previews := previews + urls;
      accepted := true;
    }

    /** `removeNewImage`: position `i` leaves both lists. */
    method RemoveNewImage(i: int)
      requires Valid()
      modifies this`files, this`previews
      ensures Valid()
      ensures files == RemoveAt(old(files), i) && previews == RemoveAt(old(previews), i)
      ensures ImageCount() <= old(ImageCount())
    {
      RemoveAtKeepsPairs(files, previews, i);
      files := RemoveAt(files, i);
      previews := RemoveAt(previews, i);
    }

    /** `removeExistingImage`. */
    method RemoveExistingImage(i: int)
      modifies this`existing
      ensures existing == RemoveAt(old(existing), i)
      ensures ImageCount() <= old(ImageCount())
    {
      existing := RemoveAt(existing, i);
    }

    /** `handleSubmit`: refuses a blank title or address; otherwise uploads
        the new photos one after the other (`outcomes[k]` is the public URL
        of `files[k]`, or `None` when its upload failed) and builds the row:
        stored photos first, then the uploaded ones, the first photo as main
        image, the area as "amount unit" and the current user as owner. */
    method Submit(userId: string, outcomes: seq<Option<string>>) returns (result: SubmitResult)
      requires |outcomes| == |files|
      ensures result == MissingRequired <==> AllWhitespace(form.title) || AllWhitespace(form.address)
      ensures result.Save? ==>
        && result.row.form == form
        && result.row.ownerId == userId
        && result.row.areaSize == FormatArea(area)
        && result.row.gallery == existing + Successes(outcomes)
        && |result.row.gallery| <= ImageCount()
        && (result.row.imageUrl.None? <==> result.row.gallery == [])
        && (result.row.gallery != [] ==> result.row.imageUrl == Some(result.row.gallery[0]))
    {
      TrimEmptyIff(form.title);
      TrimEmptyIff(form.address);
      if Trim(form.title) == [] || Trim(form.address) == [] {
        return MissingRequired;
      }
      var uploaded: seq<string> := [];
      var i := 0;
      while i < |files|
        invariant 0 <= i <= |outcomes|
        invariant uploaded == Successes(outcomes[..i])
      {
        assert outcomes[..i + 1][..i] == outcomes[..i];
        if outcomes[i].Some? {
          uploaded := uploaded + [outcomes[i].value];
        }
        i := i + 1;
      }
      assert outcomes[..i] == outcomes;
      var gallery := existing + uploaded;
      var mainImage := if |gallery| > 0 then Some(gallery[0]) else None;
      result := Save(SpaceRow(form, FormatArea(area), userId, mainImage, gallery));
    }
  }
}
