/** The listing document: its fields, how a request body is cast into it (the title
    setter that trims, the defaults), and the schema's validators as `ValidListing`. */
module ListingModel {
  import opened Wrappers
  import opened Text

  type Id = string

  datatype Address = Address(street: Option<string>, city: Option<string>, state: Option<string>,
                             zipCode: Option<string>, country: Option<string>)

  datatype Image = Image(url: Option<string>, caption: Option<string>)

  /** An availability window; dates are kept abstract as instants. */
  datatype Window = Window(start: Option<int>, end: Option<int>, available: bool)

  /** An availability window as a request body supplies it: `available` may be omitted. */
  datatype WindowInput = WindowInput(start: Option<int>, end: Option<int>, available: Option<bool>)

  /** A listing document. Scalars a body may omit are optional; arrays default to empty. */
  datatype Listing = Listing(
    title: Option<string>,
    description: Option<string>,
    address: Address,
    price: Option<int>,
    amenities: seq<string>,
    images: seq<Image>,
    host: Id,
    propertyType: Option<string>,
    bedrooms: Option<int>,
    bathrooms: Option<int>,
    maxGuests: Option<int>,
    availability: seq<Window>,
    rules: seq<string>)

  /** A request body for create or update: every field may be missing. */
  datatype ListingBody = ListingBody(
    title: Option<string>,
    description: Option<string>,
    address: Option<Address>,
    price: Option<int>,
    amenities: Option<seq<string>>,
    images: Option<seq<Image>>,
    host: Option<Id>,
    propertyType: Option<string>,
    bedrooms: Option<int>,
    bathrooms: Option<int>,
    maxGuests: Option<int>,
    availability: Option<seq<WindowInput>>,
    rules: Option<seq<string>>)

  const PropertyTypes: seq<string> := ["apartment", "house", "guesthouse", "condo", "cabin", "other"]
  const TitleMax: nat := 100
  const DescriptionMax: nat := 1000

  const NoAddress: Address := Address(None, None, None, None, None)

  /** The `trim: true` setter on the title. */
  function CastTitle(t: Option<string>): (r: Option<string>)
    ensures r.Some? <==> t.Some?
    ensures r.Some? ==> r.value == Trim(t.value)
    ensures r.Some? ==> IsTrimmed(r.value) && |r.value| <= |t.value|
    ensures r.Some? ==> (r.value == [] <==> IsBlank(t.value))
  {
    if t.Some? then Some(Trim(t.value)) else None
  }

  /** Availability windows with the `available: true` default applied. */
  function CastWindows(ws: seq<WindowInput>): seq<Window>
  {
    if |ws| == 0 then []
    else [CastWindow(ws[0])] + CastWindows(ws[1..])
  }

  /** One availability window with the `available: true` default applied. */
  function CastWindow(w: WindowInput): Window
  {
    Window(w.start, w.end, w.available.GetOr(true))
  }

  /** Each cast window keeps its dates and is unavailable only when the input says
      `available: false`. */
  lemma {:induction false} CastWindowsDefaults(ws: seq<WindowInput>)
    ensures |CastWindows(ws)| == |ws|
    ensures forall i :: 0 <= i < |ws| ==> CastWindows(ws)[i].start == ws[i].start && CastWindows(ws)[i].end == ws[i].end
    ensures forall i :: 0 <= i < |ws| ==> (CastWindows(ws)[i].available <==> ws[i].available != Some(false))
  {
    if |ws| > 0 {
      CastWindowsDefaults(ws[1..]);
      var r := CastWindows(ws);
      assert r == [CastWindow(ws[0])] + CastWindows(ws[1..]);
      forall i | 0 < i < |ws|
        ensures r[i] == CastWindows(ws[1..])[i - 1] && ws[i] == ws[1..][i - 1]
      {
      }
    }
  }

  /** The required validator of a string path: present and not empty. */
  predicate RequiredText(s: Option<string>)
  {
    s.Some? && s.value != ""
  }

  /** A required number with a `min` validator. */
  predicate AtLeast(n: Option<int>, lo: int)
  {
    n.Some? && n.value >= lo
  }

  predicate ValidTitle(t: Option<string>)
  {
    RequiredText(t) && |t.value| <= TitleMax
  }

  predicate ValidDescription(d: Option<string>)
  {
    RequiredText(d) && |d.value| <= DescriptionMax
  }

  predicate ValidAddress(a: Address)
  {
    RequiredText(a.street) && RequiredText(a.city) && RequiredText(a.state)
    && RequiredText(a.zipCode) && RequiredText(a.country)
  }

  /** Every image record carries a url; the caption is optional and the list may be empty. */
  predicate ValidImages(images: seq<Image>)
  {
    forall i :: 0 <= i < |images| ==> RequiredText(images[i].url)
  }

  predicate ValidPropertyType(p: Option<string>)
  {
    p.Some? && p.value in PropertyTypes
  }

  /** The schema's validators, all together. */
  predicate ValidListing(l: Listing)
  {
    && ValidTitle(l.title)
    && ValidDescription(l.description)
    && ValidAddress(l.address)
    && AtLeast(l.price, 0)
    && ValidImages(l.images)
    && ValidPropertyType(l.propertyType)
    && AtLeast(l.bedrooms, 0)
    && AtLeast(l.bathrooms, 0)
    && AtLeast(l.maxGuests, 1)
  }

  /** `new Listing({ ...body, host })`: the body cast into a document whose host is the
      given id, whatever host the body names. */
  function FromBody(body: ListingBody, host: Id): (l: Listing)
    ensures l.host == host
    ensures l.title == CastTitle(body.title)
    ensures l.title.Some? ==> IsTrimmed(l.title.value)
    ensures l.description == body.description && l.price == body.price
    ensures l.propertyType == body.propertyType
    ensures l.bedrooms == body.bedrooms && l.bathrooms == body.bathrooms && l.maxGuests == body.maxGuests
    ensures body.address.Some? ==> l.address == body.address.value
    ensures body.address.None? ==> l.address == NoAddress
    ensures body.amenities.Some? ==> l.amenities == body.amenities.value
    ensures body.amenities.None? ==> l.amenities == []
    ensures body.images.Some? ==> l.images == body.images.value
    ensures body.images.None? ==> l.images == []
    ensures body.rules.Some? ==> l.rules == body.rules.value
    ensures body.rules.None? ==> l.rules == []
    ensures body.availability.Some? ==> l.availability == CastWindows(body.availability.value)
    ensures body.availability.None? ==> l.availability == []
  {
    Listing(
      CastTitle(body.title),
      body.description,
      body.address.GetOr(NoAddress),
      body.price,
      body.amenities.GetOr([]),
      body.images.GetOr([]),
      host,
      body.propertyType,
      body.bedrooms,
      body.bathrooms,
      body.maxGuests,
      if body.availability.Some? then CastWindows(body.availability.value) else [],
      body.rules.GetOr([]))
  }

  /** `findByIdAndUpdate(id, body)`: every field the body supplies replaces the stored
      one (an address replaces the whole address); every other field is kept. The host
      is among the fields a body may replace. */
  function ApplyPatch(l: Listing, body: ListingBody): (r: Listing)
    ensures body.title.None? ==> r.title == l.title
    ensures body.title.Some? ==> r.title == CastTitle(body.title)
    ensures body.description.None? ==> r.description == l.description
    ensures body.description.Some? ==> r.description == body.description
    ensures body.address.None? ==> r.address == l.address
    ensures body.address.Some? ==> r.address == body.address.value
    ensures body.price.None? ==> r.price == l.price
    ensures body.price.Some? ==> r.price == body.price
    ensures body.amenities.None? ==> r.amenities == l.amenities
    ensures body.amenities.Some? ==> r.amenities == body.amenities.value
    ensures body.images.None? ==> r.images == l.images
    ensures body.images.Some? ==> r.images == body.images.value
    ensures body.host.None? ==> r.host == l.host
    ensures body.host.Some? ==> r.host == body.host.value
    ensures body.propertyType.None? ==> r.propertyType == l.propertyType
    ensures body.propertyType.Some? ==> r.propertyType == body.propertyType
    ensures body.bedrooms.None? ==> r.bedrooms == l.bedrooms
    ensures body.bedrooms.Some? ==> r.bedrooms == body.bedrooms
    ensures body.bathrooms.None? ==> r.bathrooms == l.bathrooms
    ensures body.bathrooms.Some? ==> r.bathrooms == body.bathrooms
    ensures body.maxGuests.None? ==> r.maxGuests == l.maxGuests
    ensures body.maxGuests.Some? ==> r.maxGuests == body.maxGuests
    ensures body.availability.None? ==> r.availability == l.availability
    ensures body.availability.Some? ==> r.availability == CastWindows(body.availability.value)
    ensures body.rules.None? ==> r.rules == l.rules
    ensures body.rules.Some? ==> r.rules == body.rules.value
  {
    var title := if body.title.Some? then CastTitle(body.title) else l.title;
    var windows := if body.availability.Some? then CastWindows(body.availability.value) else l.availability;
    Listing(
      title,
      body.description.Or(l.description),
      body.address.GetOr(l.address),
      body.price.Or(l.price),
      body.amenities.GetOr(l.amenities),
      body.images.GetOr(l.images),
      body.host.GetOr(l.host),
      body.propertyType.Or(l.propertyType),
      body.bedrooms.Or(l.bedrooms),
      body.bathrooms.Or(l.bathrooms),
      body.maxGuests.Or(l.maxGuests),
      windows,
      body.rules.GetOr(l.rules))
  }

  /** The update validators (`runValidators: true`): only the paths the body sets are
      checked, each against its schema validator. */
  predicate PatchValid(body: ListingBody)
  {
    && (body.title.Some? ==> ValidTitle(CastTitle(body.title)))
    && (body.description.Some? ==> ValidDescription(body.description))
    && (body.address.Some? ==> ValidAddress(body.address.value))
    && (body.price.Some? ==> AtLeast(body.price, 0))
    && (body.images.Some? ==> ValidImages(body.images.value))
    && (body.propertyType.Some? ==> ValidPropertyType(body.propertyType))
    && (body.bedrooms.Some? ==> AtLeast(body.bedrooms, 0))
    && (body.bathrooms.Some? ==> AtLeast(body.bathrooms, 0))
    && (body.maxGuests.Some? ==> AtLeast(body.maxGuests, 1))
  }

  /** For a stored listing that satisfies the schema, checking only the updated paths
      decides exactly whether the updated document satisfies the schema. */
  lemma PatchValidity(l: Listing, body: ListingBody)
    requires ValidListing(l)
    ensures ValidListing(ApplyPatch(l, body)) <==> PatchValid(body)
  {
    TitlePatch(l, body);
    NumberPatch(body.price, l.price, 0);
    NumberPatch(body.bedrooms, l.bedrooms, 0);
    NumberPatch(body.bathrooms, l.bathrooms, 0);
    NumberPatch(body.maxGuests, l.maxGuests, 1);
  }

  /** A patched title is valid exactly when the stored one is kept or the new one is valid. */
  lemma TitlePatch(l: Listing, body: ListingBody)
    requires ValidTitle(l.title)
    ensures ValidTitle(ApplyPatch(l, body).title) <==> (body.title.Some? ==> ValidTitle(CastTitle(body.title)))
  {
  }

  /** A number path the body may set: valid afterwards exactly when it is kept or the given
      value is valid. */
  lemma NumberPatch(given: Option<int>, kept: Option<int>, lo: int)
    requires AtLeast(kept, lo)
    ensures AtLeast(given.Or(kept), lo) <==> (given.Some? ==> AtLeast(given, lo))
  {
  }

  /** What a body must supply for the document built from it to satisfy the schema:
      a title that is not blank and at most 100 characters once trimmed, a description of
      1 to 1000 characters, all five address parts, a non-negative price, bedroom and
      bathroom counts, at least one guest, a known property type, and a url on every image. */
  predicate CompleteBody(body: ListingBody)
  {
    && body.title.Some? && !IsBlank(body.title.value) && |Trim(body.title.value)| <= TitleMax
    && ValidDescription(body.description)
    && body.address.Some? && ValidAddress(body.address.value)
    && AtLeast(body.price, 0)
    && (body.images.Some? ==> ValidImages(body.images.value))
    && ValidPropertyType(body.propertyType)
    && AtLeast(body.bedrooms, 0) && AtLeast(body.bathrooms, 0) && AtLeast(body.maxGuests, 1)
  }

  /** The document built from a body satisfies the schema exactly when the body is
      complete; an empty image list is allowed. */
  lemma FromBodyValidity(body: ListingBody, host: Id)
    ensures ValidListing(FromBody(body, host)) <==> CompleteBody(body)
  {
  }

  /** A created document is the patch of an empty document: create and update cast a
      body the same way. */
  lemma CreateIsPatchOfEmpty(body: ListingBody, host: Id)
    ensures FromBody(body, host) == ApplyPatch(Listing(None, None, NoAddress, None, [], [], host, None, None, None, None, [], []), body.(host := None))
  {
  }
}
