/** The logic of the curator's event form: selecting artworks for an event
    (with a per-location cap), the gallery of artworks still selectable,
    paged 15 at a time, the filter sent to the art search, and the error
    text shown when saving fails.

    The form's state (the selected ids, the selected artworks' records and
    the current gallery page) lives in the class `CuratorForm`; everything
    the form derives from it is a pure function. */
module KuratorForm {
  import opened JsValues

  /** An artwork's `object_number` in the art collection. */
  type ObjectNumber = string

  /** An artwork record from the art search; `extras` stands for the fields
      the form shows but does not interpret (image URL, titles, ...). */
  datatype Artwork = Artwork(objectNumber: ObjectNumber, extras: map<string, string>)

  /** A location an event can be held at, with its optional artwork cap. */
  datatype Location = Location(id: string, maxArtworks: NumInput)

  /** The two lists the form keeps in step: the selected object numbers and
      the records of the selected artworks. */
  datatype Selection = Selection(images: seq<ObjectNumber>, details: seq<Artwork>)

  const ImagesPerPage := 15
  const AllFilter := "all"
  const ErrorPrefix := "Fejl: "
  const ConflictMarker := "conflict: another event already exists"
  const ConflictText := "Der findes allerede et event på denne dato og lokation."
  const UnknownText := "Ukendt fejl."

  // ---------------------------------------------------------------------
  // Selecting artworks
  // ---------------------------------------------------------------------

  /** `locations.find(loc => loc.id.toString() === chosen)` */
  function FindLocation(locations: seq<Location>, chosen: string): (r: Option<Location>)
    ensures r.Some? ==> r.value in locations && r.value.id == chosen
    ensures r.Some? ==> exists i :: 0 <= i < |locations| && locations[i] == r.value &&
                          forall j :: 0 <= j < i ==> locations[j].id != chosen
    ensures r.None? <==> forall i :: 0 <= i < |locations| ==> locations[i].id != chosen
  {
    if |locations| == 0 then None
    else if locations[0].id == chosen then Some(locations[0])
    else FindLocation(locations[1..], chosen)
  }

  /** The cap a location puts on the selection: none when no location is
      chosen or its `maxArtworks` is falsy. */
  function Cap(location: Option<Location>): Option<int> {
    if location.Some? && Truthy(location.value.maxArtworks)
    then Some(location.value.maxArtworks.value)
    else None
  }

  /** `ids.filter(item => item !== n)` */
  function WithoutId(ids: seq<ObjectNumber>, n: ObjectNumber): (r: seq<ObjectNumber>)
    ensures |r| <= |ids|
    ensures forall x :: x in r <==> x in ids && x != n
  {
    if |ids| == 0 then []
    else if ids[0] != n then [ids[0]] + WithoutId(ids[1..], n)
    else WithoutId(ids[1..], n)
  }

  /** `details.filter(detail => detail.object_number !== n)` */
  function WithoutDetail(details: seq<Artwork>, n: ObjectNumber): (r: seq<Artwork>)
    ensures |r| <= |details|
    ensures forall a :: a in r <==> a in details && a.objectNumber != n
  {
    if |details| == 0 then []
    else if details[0].objectNumber != n then [details[0]] + WithoutDetail(details[1..], n)
    else WithoutDetail(details[1..], n)
  }

  /** `details.some(detail => detail.object_number === n)` */
  predicate HasDetail(details: seq<Artwork>, n: ObjectNumber) {
    exists i :: 0 <= i < |details| && details[i].objectNumber == n
  }

  /** The selection after a click on `img` (`handleImageClick`). A selected
      artwork is deselected from both lists. An unselected one is refused
      when a cap applies and is already reached; otherwise its id is
      appended, and its record too unless one with that number is there. */
  function Clicked(sel: Selection, img: Artwork, cap: Option<int>): (r: Selection)
    ensures img.objectNumber in r.images <==>
              img.objectNumber !in sel.images && !(cap.Some? && |sel.images| >= cap.value)
    ensures cap.Some? && |sel.images| <= cap.value ==> |r.images| <= cap.value
    ensures forall x :: x != img.objectNumber ==> (x in r.images <==> x in sel.images)
  {
    var n := img.objectNumber;
    if n in sel.images then
      Selection(WithoutId(sel.images, n), WithoutDetail(sel.details, n))
    else if cap.Some? && |sel.images| >= cap.value then
      sel
    else
      Selection(sel.images + [n],
                if HasDetail(sel.details, n) then sel.details else sel.details + [img])
  }

  predicate DistinctIds(ids: seq<ObjectNumber>) {
    forall i, j :: 0 <= i < j < |ids| ==> ids[i] != ids[j]
  }

  predicate DistinctDetails(details: seq<Artwork>) {
    forall i, j :: 0 <= i < j < |details| ==> details[i].objectNumber != details[j].objectNumber
  }

  lemma {:induction false} WithoutIdKeepsDistinct(ids: seq<ObjectNumber>, n: ObjectNumber)
    requires DistinctIds(ids)
    ensures DistinctIds(WithoutId(ids, n))
  {
    if |ids| > 0 {
      WithoutIdKeepsDistinct(ids[1..], n);
      if ids[0] != n {
        var r := WithoutId(ids, n);
        forall j | 0 < j < |r|
          ensures r[0] != r[j]
        {
          assert r[j] in WithoutId(ids[1..], n);
        }
      }
    }
  }

  lemma {:induction false} WithoutDetailKeepsDistinct(details: seq<Artwork>, n: ObjectNumber)
    requires DistinctDetails(details)
    ensures DistinctDetails(WithoutDetail(details, n))
  {
    if |details| > 0 {
      WithoutDetailKeepsDistinct(details[1..], n);
      if details[0].objectNumber != n {
        var r := WithoutDetail(details, n);
        forall j | 0 < j < |r|
          ensures r[0].objectNumber != r[j].objectNumber
        {
          assert r[j] in WithoutDetail(details[1..], n);
        }
      }
    }
  }

  /** The filter keeps order: on distinct ids, removing the id at `k` cuts
      out exactly that position. */
  lemma {:induction false} WithoutIdCutsOut(ids: seq<ObjectNumber>, k: int)
    requires DistinctIds(ids) && 0 <= k < |ids|
    ensures WithoutId(ids, ids[k]) == ids[..k] + ids[k + 1..]
  {
    if k == 0 {
      WithoutIdAbsent(ids[1..], ids[0]);
      assert ids[..0] + ids[1..] == ids[1..];
    } else {
      assert ids[0] != ids[k];
      assert ids[1..][k - 1] == ids[k];
      WithoutIdCutsOut(ids[1..], k - 1);
      CutOutOfTail(ids, k);
    }
  }

  lemma {:induction false} WithoutIdAbsent(ids: seq<ObjectNumber>, n: ObjectNumber)
    requires n !in ids
    ensures WithoutId(ids, n) == ids
  {
    if |ids| > 0 {
      WithoutIdAbsent(ids[1..], n);
      assert [ids[0]] + ids[1..] == ids;
    }
  }

  /** On records with distinct numbers, removing the number held at `k`
      cuts out exactly that position; the others keep their order. */
  lemma {:induction false} WithoutDetailCutsOut(details: seq<Artwork>, k: int)
    requires DistinctDetails(details) && 0 <= k < |details|
    ensures WithoutDetail(details, details[k].objectNumber) == details[..k] + details[k + 1..]
  {
    var n := details[k].objectNumber;
    var tail := details[1..];
    if k == 0 {
      forall i | 0 <= i < |tail|
        ensures tail[i].objectNumber != n
      {
        assert tail[i] == details[i + 1];
      }
      WithoutDetailAbsent(tail, n);
    } else {
      assert details[0].objectNumber != n;
      assert DistinctDetails(tail) by {
        forall i, j | 0 <= i < j < |tail|
          ensures tail[i].objectNumber != tail[j].objectNumber
        {
          assert tail[i] == details[i + 1] && tail[j] == details[j + 1];
        }
      }
      assert tail[k - 1] == details[k];
      WithoutDetailCutsOut(tail, k - 1);
      assert WithoutDetail(details, n) == [details[0]] + WithoutDetail(tail, n);
      CutOutOfTail(details, k);
    }
  }

  /** Removing a number no record holds leaves the records unchanged. */
  lemma {:induction false} WithoutDetailAbsent(details: seq<Artwork>, n: ObjectNumber)
    requires forall i :: 0 <= i < |details| ==> details[i].objectNumber != n
    ensures WithoutDetail(details, n) == details
  {
    if |details| > 0 {
      WithoutDetailAbsent(details[1..], n);
      assert [details[0]] + details[1..] == details;
    }
  }

  /** Clicking a selected artwork removes its number from the ids and every
      record with that number from the details; nothing else goes, and on
      distinct lists what remains keeps its order. */
  lemma ClickDeselects(sel: Selection, img: Artwork, cap: Option<int>)
    requires img.objectNumber in sel.images
    ensures var r := Clicked(sel, img, cap);
            && img.objectNumber !in r.images
            && !HasDetail(r.details, img.objectNumber)
            && (forall x :: x in r.images <==> x in sel.images && x != img.objectNumber)
            && (forall a :: a in r.details <==> a in sel.details && a.objectNumber != img.objectNumber)
            && (DistinctIds(sel.images) ==>
                  forall k :: 0 <= k < |sel.images| && sel.images[k] == img.objectNumber ==>
                    r.images == sel.images[..k] + sel.images[k + 1..])
            && (DistinctDetails(sel.details) ==>
                  forall k :: 0 <= k < |sel.details| && sel.details[k].objectNumber == img.objectNumber ==>
                    r.details == sel.details[..k] + sel.details[k + 1..])
            && (!HasDetail(sel.details, img.objectNumber) ==> r.details == sel.details)
  {
    var n := img.objectNumber;
    forall k | 0 <= k < |sel.images| && sel.images[k] == n && DistinctIds(sel.images)
      ensures WithoutId(sel.images, n) == sel.images[..k] + sel.images[k + 1..]
    {
      WithoutIdCutsOut(sel.images, k);
    }
    forall k | 0 <= k < |sel.details| && sel.details[k].objectNumber == n && DistinctDetails(sel.details)
      ensures WithoutDetail(sel.details, n) == sel.details[..k] + sel.details[k + 1..]
    {
      WithoutDetailCutsOut(sel.details, k);
    }
    if !HasDetail(sel.details, n) {
      WithoutDetailAbsent(sel.details, n);
    }
  }

  /** Clicking an unselected artwork when the cap is reached changes
      neither list. */
  lemma ClickRefusedAtCap(sel: Selection, img: Artwork, cap: Option<int>)
    requires img.objectNumber !in sel.images
    requires cap.Some? && |sel.images| >= cap.value
    ensures Clicked(sel, img, cap) == sel
  {
  }

  /** Clicking an unselected artwork below the cap (or with no cap) appends
      its number, and its record only if no record has that number. */
  lemma ClickSelects(sel: Selection, img: Artwork, cap: Option<int>)
    requires img.objectNumber !in sel.images
    requires cap.None? || |sel.images| < cap.value
    ensures var r := Clicked(sel, img, cap);
            && r.images == sel.images + [img.objectNumber]
            && (HasDetail(sel.details, img.objectNumber) ==> r.details == sel.details)
            && (!HasDetail(sel.details, img.objectNumber) ==> r.details == sel.details + [img])
  {
  }

  /** The details list never gains a second record for the same number. */
  lemma ClickKeepsDetailsDistinct(sel: Selection, img: Artwork, cap: Option<int>)
    requires DistinctDetails(sel.details)
    ensures DistinctDetails(Clicked(sel, img, cap).details)
  {
    var n := img.objectNumber;
    if n in sel.images {
      WithoutDetailKeepsDistinct(sel.details, n);
    }
  }

  /** With or without a cap, no click puts an id into the selection twice. */
  lemma ClickKeepsIdsDistinct(sel: Selection, img: Artwork, cap: Option<int>)
    requires DistinctIds(sel.images)
    ensures DistinctIds(Clicked(sel, img, cap).images)
  {
    var n := img.objectNumber;
    if n in sel.images {
      WithoutIdKeepsDistinct(sel.images, n);
    }
  }

  /** The selection invariant for a location with a cap: no duplicate ids,
      no duplicate records, at most `cap` ids. */
  predicate WithinCap(sel: Selection, cap: int) {
    && |sel.images| <= cap
    && DistinctIds(sel.images)
    && DistinctDetails(sel.details)
  }

  lemma ClickKeepsWithinCap(sel: Selection, img: Artwork, cap: int)
    requires WithinCap(sel, cap)
    ensures WithinCap(Clicked(sel, img, Some(cap)), cap)
  {
    ClickKeepsDetailsDistinct(sel, img, Some(cap));
    ClickKeepsIdsDistinct(sel, img, Some(cap));
  }

  /** The selection after clicking each artwork of `imgs` in turn. */
  function ClickAll(sel: Selection, imgs: seq<Artwork>, cap: Option<int>): Selection
    decreases |imgs|
  {
    if |imgs| == 0 then sel else ClickAll(Clicked(sel, imgs[0], cap), imgs[1..], cap)
  }

  /** Starting at or below the cap with distinct ids and records, no
      sequence of clicks exceeds the cap or duplicates an id or a record. */
  lemma {:induction false} ClicksStayWithinCap(sel: Selection, imgs: seq<Artwork>, cap: int)
    requires WithinCap(sel, cap)
    ensures WithinCap(ClickAll(sel, imgs, Some(cap)), cap)
    decreases |imgs|
  {
    if |imgs| > 0 {
      ClickKeepsWithinCap(sel, imgs[0], cap);
      ClicksStayWithinCap(Clicked(sel, imgs[0], Some(cap)), imgs[1..], cap);
    }
  }

  /** With or without a cap (no location chosen, or a falsy `maxArtworks`),
      no sequence of clicks duplicates an id or a record. */
  lemma {:induction false} ClicksStayDistinct(sel: Selection, imgs: seq<Artwork>, cap: Option<int>)
    requires DistinctIds(sel.images) && DistinctDetails(sel.details)
    ensures DistinctIds(ClickAll(sel, imgs, cap).images)
    ensures DistinctDetails(ClickAll(sel, imgs, cap).details)
    decreases |imgs|
  {
    if |imgs| > 0 {
      ClickKeepsIdsDistinct(sel, imgs[0], cap);
      ClickKeepsDetailsDistinct(sel, imgs[0], cap);
      ClicksStayDistinct(Clicked(sel, imgs[0], cap), imgs[1..], cap);
    }
  }

  // ---------------------------------------------------------------------
  // The gallery and its pages
  // ---------------------------------------------------------------------

  /** `displayed.filter(img => !selected.includes(img.object_number))` */
  function GalleryImages(displayed: seq<Artwork>, selected: seq<ObjectNumber>): (r: seq<Artwork>)
    ensures |r| <= |displayed|
    ensures forall a :: a in r <==> a in displayed && a.objectNumber !in selected
  {
    if |displayed| == 0 then []
    else if displayed[0].objectNumber !in selected
    then [displayed[0]] + GalleryImages(displayed[1..], selected)
    else GalleryImages(displayed[1..], selected)
  }

  /** The gallery keeps the displayed order: filtering a concatenation is
      the concatenation of the filtered parts. */
  lemma {:induction false} GalleryKeepsOrder(a: seq<Artwork>, b: seq<Artwork>, selected: seq<ObjectNumber>)
    ensures GalleryImages(a + b, selected) == GalleryImages(a, selected) + GalleryImages(b, selected)
  {
    if |a| > 0 {
      var rest := a[1..];
      assert (a + b)[0] == a[0];
      assert (a + b)[1..] == rest + b;
      GalleryKeepsOrder(rest, b, selected);
      if a[0].objectNumber !in selected {
        assert GalleryImages(a + b, selected) == [a[0]] + GalleryImages(rest + b, selected);
        assert GalleryImages(a, selected) == [a[0]] + GalleryImages(rest, selected);
      } else {
        assert GalleryImages(a + b, selected) == GalleryImages(rest + b, selected);
      }
    } else {
      assert a + b == b;
    }
  }

  /** Where a relative index of `Array.prototype.slice` lands in a list of
      length `n`: negative values count from the end, and both ends clamp. */
  function SliceIndex(i: int, n: nat): int {
    if i < 0 then Max(n + i, 0) else Min(i, n)
  }

  /** `s.slice(start, end)` */
  function JsSlice<T>(s: seq<T>, start: int, end: int): (r: seq<T>)
    ensures |r| <= |s|
    ensures 0 <= start <= end ==> r == s[Min(start, |s|)..Min(end, |s|)]
    ensures forall x :: x in r ==> x in s
  {
    var from := SliceIndex(start, |s|);
    var to := SliceIndex(end, |s|);
    if from < to then s[from..to] else []
  }

  /** `gallery.slice(page * 15 - 15, page * 15)`: the artworks on `page`. */
  function PageImages<T>(gallery: seq<T>, page: int): (r: seq<T>)
    ensures |r| <= ImagesPerPage
    ensures page == 0 ==> r == []
    ensures forall x :: x in r ==> x in gallery
  {
    JsSlice(gallery, page * ImagesPerPage - ImagesPerPage, page * ImagesPerPage)
  }

  /** `Math.ceil(n / 15)` */
  function TotalPages(n: nat): (r: nat)
    ensures n == 0 ==> r == 0
    ensures n > 0 ==> (r - 1) * ImagesPerPage < n <= r * ImagesPerPage
  {
    (n + ImagesPerPage - 1) / ImagesPerPage
  }

  /** Page `p` (counting from 1) holds the elements at positions
      `[(p-1)*15, p*15)` that exist, so never more than 15. */
  lemma PageHoldsItsSlice<T>(gallery: seq<T>, page: int)
    requires page >= 1
    ensures var r := PageImages(gallery, page);
            && |r| <= ImagesPerPage
            && r == gallery[Min((page - 1) * ImagesPerPage, |gallery|)..Min(page * ImagesPerPage, |gallery|)]
            && (forall k :: 0 <= k < |r| ==> r[k] == gallery[(page - 1) * ImagesPerPage + k])
  {
  }

  /** A page from 1 to the page count is never empty; every page after it is. */
  lemma PagesWithinCountAreNonEmpty<T>(gallery: seq<T>, page: int)
    requires page >= 1
    ensures PageImages(gallery, page) != [] <==> page <= TotalPages(|gallery|)
  {
    var n := |gallery|;
    var t := TotalPages(n);
    if page <= t {
      assert (page - 1) * ImagesPerPage <= (t - 1) * ImagesPerPage;
    } else {
      assert page * ImagesPerPage - ImagesPerPage >= t * ImagesPerPage;
    }
  }

  /** Pages 1 to `k` laid end to end. */
  function FirstPages<T>(gallery: seq<T>, k: nat): seq<T> {
    if k == 0 then [] else FirstPages(gallery, k - 1) + PageImages(gallery, k)
  }

  lemma {:induction false} FirstPagesArePrefix<T>(gallery: seq<T>, k: nat)
    ensures FirstPages(gallery, k) == gallery[..Min(k * ImagesPerPage, |gallery|)]
  {
    if k > 0 {
      FirstPagesArePrefix(gallery, k - 1);
      PageHoldsItsSlice(gallery, k);
      var n := |gallery|;
      var a := Min((k - 1) * ImagesPerPage, n);
      var b := Min(k * ImagesPerPage, n);
      assert gallery[..a] + gallery[a..b] == gallery[..b];
    }
  }

  /** The pages from 1 to the page count, in order, are exactly the gallery:
      every selectable artwork is on exactly one page. */
  lemma PagesCoverGallery<T>(gallery: seq<T>)
    ensures FirstPages(gallery, TotalPages(|gallery|)) == gallery
  {
    FirstPagesArePrefix(gallery, TotalPages(|gallery|));
  }

  // ---------------------------------------------------------------------
  // The filter sent to the art search
  // ---------------------------------------------------------------------

  /** The filter list built by `handleFilterSelection(value, name)`. */
  function FilterList(value: string, name: string): (r: seq<string>)
    ensures r == [] <==> value == AllFilter
    ensures |r| <= 1
  {
    if value != AllFilter then [name + ":" + value] else []
  }

  /** The part of a filter string before its first ':' and the part after. */
  function SplitFilter(s: string): (string, string) {
    if |s| == 0 then ("", "")
    else if s[0] == ':' then ("", s[1..])
    else
      var (n, v) := SplitFilter(s[1..]);
      ([s[0]] + n, v)
  }

  /** For a value other than "all" the filter list is one string, from which
      a category name without ':' and the value are read back. */
  lemma FilterListRoundTrip(value: string, name: string)
    requires ':' !in name
    ensures value != AllFilter ==>
              && |FilterList(value, name)| == 1
              && ':' in FilterList(value, name)[0]
              && SplitFilter(FilterList(value, name)[0]) == (name, value)
  {
    if value != AllFilter {
      assert (name + ":" + value)[|name|] == ':';
      SplitFilterReadsBack(name, value);
    }
  }

  lemma {:induction false} SplitFilterReadsBack(name: string, value: string)
    requires ':' !in name
    ensures SplitFilter(name + ":" + value) == (name, value)
  {
    if |name| > 0 {
      SplitFilterReadsBack(name[1..], value);
      assert (name + ":" + value)[1..] == name[1..] + ":" + value;
      assert [name[0]] + name[1..] == name;
    } else {
      assert name + ":" + value == [':'] + value;
    }
  }

  // ---------------------------------------------------------------------
  // The error text after a failed save
  // ---------------------------------------------------------------------

  /** `s.startsWith(p)` */
  predicate StartsWith(s: string, p: string) {
    |p| <= |s| && s[..|p|] == p
  }

  /** `s.includes(sub)` */
  predicate Contains(s: string, sub: string)
    ensures Contains(s, sub) ==> |sub| <= |s|
    ensures StartsWith(s, sub) ==> Contains(s, sub)
    decreases |s|
  {
    StartsWith(s, sub) || (|s| > 0 && Contains(s[1..], sub))
  }

  /** `sub` stands in `s` at position `i`. */
  predicate OccursAt(s: string, sub: string, i: int) {
    0 <= i <= |s| - |sub| && s[i..i + |sub|] == sub
  }

  /** `Contains` agrees with the definition by position. */
  lemma {:induction false} ContainsAtSomePosition(s: string, sub: string)
    ensures Contains(s, sub) <==> exists i :: OccursAt(s, sub, i)
  {
    if StartsWith(s, sub) {
      assert OccursAt(s, sub, 0);
    }
    if |s| > 0 {
      ContainsAtSomePosition(s[1..], sub);
      if exists i :: OccursAt(s[1..], sub, i) {
        var i :| OccursAt(s[1..], sub, i);
        assert s[1..][i..i + |sub|] == s[i + 1..i + 1 + |sub|];
        assert OccursAt(s, sub, i + 1);
      }
      if exists i :: OccursAt(s, sub, i) {
        var i :| OccursAt(s, sub, i);
        if i > 0 {
          assert s[1..][i - 1..i - 1 + |sub|] == s[i..i + |sub|];
          assert OccursAt(s[1..], sub, i - 1);
        } else {
          assert StartsWith(s, sub);
        }
      }
    } else if exists i :: OccursAt(s, sub, i) {
      var i :| OccursAt(s, sub, i);
      assert StartsWith(s, sub);
    }
  }

  /** The text shown when saving fails, from the server's `message`. */
  function SubmitErrorText(message: Option<string>): (r: string)
    ensures StartsWith(r, ErrorPrefix) && |r| > |ErrorPrefix|
    ensures TruthyText(message) && Contains(message.value, ConflictMarker) ==>
              r[|ErrorPrefix|..] == ConflictText
    ensures TruthyText(message) && !Contains(message.value, ConflictMarker) ==>
              r[|ErrorPrefix|..] == message.value
    ensures !TruthyText(message) ==> r[|ErrorPrefix|..] == UnknownText
  {
    var text :=
      if TruthyText(message) && Contains(message.value, ConflictMarker) then ConflictText
      else if TruthyText(message) then message.value
      else UnknownText;
    ErrorPrefix + text
  }

  // ---------------------------------------------------------------------
  // The form's state
  // ---------------------------------------------------------------------

  class CuratorForm {
    var selectedImages: seq<ObjectNumber>
    var selectedArtworkDetails: seq<Artwork>
    var currentPage: int

    /** The selection as one value. */
    function Current(): Selection
      reads this
    {
      Selection(selectedImages, selectedArtworkDetails)
    }

    /** A new form, or the edit form of an event that already has artworks. */
    constructor (prevArtworkIds: Option<seq<ObjectNumber>>, prevDetails: Option<seq<Artwork>>)
      ensures selectedImages == (if prevArtworkIds.Some? then prevArtworkIds.value else [])
      ensures selectedArtworkDetails == (if prevDetails.Some? then prevDetails.value else [])
      ensures currentPage == 1
    {
      selectedImages := if prevArtworkIds.Some? then prevArtworkIds.value else [];
      selectedArtworkDetails := if prevDetails.Some? then prevDetails.value else [];
      currentPage := 1;
    }

    /** `handleImageClick(img)`, with the location chosen in the form. */
    method HandleImageClick(img: Artwork, locations: seq<Location>, chosenLocationId: string)
      modifies this
      ensures Current() == Clicked(old(Current()), img, Cap(FindLocation(locations, chosenLocationId)))
      ensures currentPage == old(currentPage)
      ensures DistinctDetails(old(selectedArtworkDetails)) ==> DistinctDetails(selectedArtworkDetails)
      ensures DistinctIds(old(selectedImages)) ==> DistinctIds(selectedImages)
    {
      var cap := Cap(FindLocation(locations, chosenLocationId));
      if DistinctIds(selectedImages) {
        ClickKeepsIdsDistinct(Current(), img, cap);
      }
      if DistinctDetails(selectedArtworkDetails) {
        ClickKeepsDetailsDistinct(Current(), img, cap);
      }
      var next := Clicked(Current(), img, cap);
      selectedImages := next.images;
      selectedArtworkDetails := next.details;
    }

    /** `paginate(pageNumber)` */
    method Paginate(pageNumber: int)
      modifies this
      ensures currentPage == pageNumber
      ensures Current() == old(Current())
    {
      currentPage := pageNumber;
    }

    /** `handleFilterSelection(value, name)`: returns the filter list handed
      to the search and goes back to page 1. */
    method HandleFilterSelection(value: string, name: string) returns (filters: seq<string>)
      modifies this
      ensures filters == FilterList(value, name)
      ensures currentPage == 1
      ensures Current() == old(Current())
    {
      filters := FilterList(value, name);
      currentPage := 1;
    }

    /** The artworks on the current page of the gallery, from the search
        results `displayed`. */
    function CurrentImagesForGallery(displayed: seq<Artwork>): (r: seq<Artwork>)
      reads this
      ensures |r| <= ImagesPerPage
      ensures forall a :: a in r ==> a in displayed && a.objectNumber !in selectedImages
    {
      PageImages(GalleryImages(displayed, selectedImages), currentPage)
    }
  }
}
