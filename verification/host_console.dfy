/** The host console's local logic: the create-listing form check and reset, the two
    parallel image lists, deletions from the local lists, the amenities and rules
    parsers, the owner filter of fetched listings and the description preview. */
module HostConsole {
  import opened Wrappers
  import opened Text
  import opened Seqs
  import ListingModel

  type Id = string

  datatype FormAddress = FormAddress(street: string, city: string, state: string,
                                     zipCode: string, country: string)

  /** The create-listing form. The price is the text of its input; the counts are the
      already-parsed numbers the inputs store. */
  datatype ListingForm = ListingForm(
    title: string, description: string, address: FormAddress, price: string,
    propertyType: string, bedrooms: int, bathrooms: int, maxGuests: int,
    amenities: seq<string>, rules: seq<string>)

  /** An image read for preview: its data URL and its file name. */
  datatype Upload = Upload(preview: string, name: string)

  /** A selected file; only its name matters here. */
  datatype FileRef = FileRef(name: string)

  /** How a fetched listing refers to its host: a bare id, a populated user document
      (whose `_id` may be missing), or nothing. */
  datatype HostRef = HostId(id: Id) | HostDoc(docId: Option<Id>) | NoHost

  /** A listing as the console holds it. */
  datatype Card = Card(id: Id, host: HostRef, title: string, description: Option<string>)

  datatype Reservation = Reservation(guest: string, listing: string)

  datatype Console = Console(form: ListingForm, uploaded: seq<Upload>, files: seq<FileRef>,
                             listings: seq<Card>, reservations: seq<Reservation>)

  /** The body the console posts to create a listing. The price stays text: parsing it
      as a float is not modelled. */
  datatype CreateRequest = CreateRequest(form: ListingForm, images: seq<ListingModel.Image>, host: Id)

  const EmptyForm: ListingForm :=
    ListingForm("", "", FormAddress("", "", "", "", ""), "", "apartment", 1, 1, 1, [], [])

  const MissingFields: string := "Please fill in all required fields"
  const MissingImage: string := "Please upload at least one image"

  /** The fields `handleCreateListing` insists on: title, description, price, street, city
      and country. State and zip code are not checked. */
  predicate RequiredFilled(f: ListingForm)
  {
    f.title != "" && f.description != "" && f.price != ""
    && f.address.street != "" && f.address.city != "" && f.address.country != ""
  }

  /** The uploaded previews as image records: the data URL and the file name as caption,
      in upload order. */
  function ImagesOf(uploaded: seq<Upload>): (r: seq<ListingModel.Image>)
    ensures |r| == |uploaded|
    ensures forall i :: 0 <= i < |r| ==>
      r[i].url == Some(uploaded[i].preview) && r[i].caption == Some(uploaded[i].name)
  {
    seq(|uploaded|, i requires 0 <= i < |uploaded| =>
      ListingModel.Image(Some(uploaded[i].preview), Some(uploaded[i].name)))
  }

  /** The checks of `handleCreateListing` before anything is sent: the required fields,
      then at least one uploaded image; then the request with the images and the user's
      id as host. */
  function PrepareCreate(c: Console, user: Id): (r: Result<CreateRequest>)
    ensures r.Ok? <==> RequiredFilled(c.form) && |c.uploaded| > 0
    ensures !RequiredFilled(c.form) ==> r == Err(MissingFields)
    ensures RequiredFilled(c.form) && |c.uploaded| == 0 ==> r == Err(MissingImage)
    ensures r.Ok? ==> r.value.form == c.form && r.value.host == user && |r.value.images| == |c.uploaded|
    ensures r.Ok? ==> r.value.images == ImagesOf(c.uploaded)
    ensures r.Ok? ==> (ListingModel.ValidImages(r.value.images) <==>
      forall i :: 0 <= i < |c.uploaded| ==> c.uploaded[i].preview != "")
  {
    if !RequiredFilled(c.form) then Err(MissingFields)
    else if |c.uploaded| == 0 then Err(MissingImage)
    else Ok(CreateRequest(c.form, ImagesOf(c.uploaded), user))
  }

  /** What the console does with the server's answer to a create: on success the new
      listing is appended and the form and both image lists are reset; otherwise only an
      alert is shown. */
  function AfterCreate(c: Console, ok: bool, created: Card): (r: Console)
    ensures ok ==> r.listings == c.listings + [created]
    ensures ok ==> r.form == EmptyForm && r.uploaded == [] && r.files == []
    ensures !ok ==> r == c
    ensures r.reservations == c.reservations
  {
    if ok then c.(listings := c.listings + [created], form := EmptyForm, uploaded := [], files := [])
    else c
  }

  /** After a successful create the reset form is refused before anything is sent, so
      the same listing cannot be posted twice by pressing again; after a failed create
      the console prepares the same request as before. */
  lemma AfterCreateResets(c: Console, created: Card, user: Id)
    ensures PrepareCreate(AfterCreate(c, true, created), user) == Err(MissingFields)
    ensures PrepareCreate(AfterCreate(c, false, created), user) == PrepareCreate(c, user)
  {
  }

  /** `removeImage(index)`: the same `splice(index, 1)` on the previews and the files. */
  function RemoveImage(c: Console, index: int): (r: Console)
    ensures |c.uploaded| == |c.files| ==> |r.uploaded| == |r.files|
    ensures 0 <= index < |c.uploaded| ==> |r.uploaded| == |c.uploaded| - 1
    ensures r.form == c.form && r.listings == c.listings && r.reservations == c.reservations
  {
    c.(uploaded := RemoveAt(c.uploaded, index), files := RemoveAt(c.files, index))
  }

  /** The previews and files stay paired after a removal: the pairs that remain are the
      old pairs with the one at `index` taken out. */
  lemma RemoveImageKeepsPairs(c: Console, index: int)
    requires |c.uploaded| == |c.files|
    ensures var r := RemoveImage(c, index);
      |r.uploaded| == |r.files| && Zip(r.uploaded, r.files) == RemoveAt(Zip(c.uploaded, c.files), index)
  {
    RemoveAtLockStep(c.uploaded, c.files, index);
  }

  /** `handleDeleteReservation(index)`. */
  function DeleteReservation(c: Console, index: int): (r: Console)
    ensures 0 <= index < |c.reservations| ==> |r.reservations| == |c.reservations| - 1
    ensures 0 <= index < |c.reservations| ==> forall j :: 0 <= j < |r.reservations| ==>
      r.reservations[j] == c.reservations[if j < index then j else j + 1]
    ensures r.listings == c.listings && r.form == c.form
  {
    c.(reservations := RemoveAt(c.reservations, index))
  }

  /** `handleDeleteListing(id)` once the server answered: on success the listings whose id
      differs, in order; otherwise nothing changes. */
  function AfterDeleteListing(c: Console, ok: bool, id: Id): (r: Console)
    ensures !ok ==> r == c
    ensures ok ==> forall k :: 0 <= k < |r.listings| ==> r.listings[k].id != id
    ensures ok ==> forall x :: multiset(r.listings)[x] == if x.id != id then multiset(c.listings)[x] else 0
    ensures ok ==> IsSubsequence(r.listings, c.listings)
  {
    if ok then c.(listings := Seqs.Filter(c.listings, (l: Card) => l.id != id)) else c
  }

  /** `pieces.map(item => item.trim())`. */
  function Trims(pieces: seq<string>): (r: seq<string>)
    ensures |r| == |pieces|
    ensures forall k :: 0 <= k < |r| ==> r[k] == Trim(pieces[k])
  {
    if |pieces| == 0 then [] else [Trim(pieces[0])] + Trims(pieces[1..])
  }

  /** The truthiness test of `.filter(item => item)` on a string. */
  predicate NonEmpty(s: string)
  {
    s != ""
  }

  /** The items kept by the list parsers: each piece trimmed, empty ones dropped. */
  function Clean(pieces: seq<string>): seq<string>
  {
    Seqs.Filter(Trims(pieces), NonEmpty)
  }

  /** A string is kept exactly when it is the non-empty trim of some piece. */
  lemma CleanMembership(pieces: seq<string>, x: string)
    ensures x in Clean(pieces) <==> x != "" && exists j :: 0 <= j < |pieces| && x == Trim(pieces[j])
  {
    var ts := Trims(pieces);
    FilterMembership(ts, NonEmpty, x);
    if x in ts {
      var j :| 0 <= j < |ts| && ts[j] == x;
      assert x == Trim(pieces[j]);
    }
  }

  /** The kept items are the non-empty trimmed pieces, in order, each as often as it
      occurs among them. */
  lemma CleanOrder(pieces: seq<string>)
    ensures IsSubsequence(Clean(pieces), Trims(pieces))
    ensures forall x :: multiset(Clean(pieces))[x] == if x != "" then multiset(Trims(pieces))[x] else 0
  {
    var ts := Trims(pieces);
    forall x ensures multiset(Clean(pieces))[x] == if x != "" then multiset(ts)[x] else 0 {
      assert NonEmpty(x) == (x != "");
    }
  }

  /** Every kept item is non-empty and trimmed. */
  lemma CleanItems(pieces: seq<string>)
    ensures forall k :: 0 <= k < |Clean(pieces)| ==> Clean(pieces)[k] != "" && IsTrimmed(Clean(pieces)[k])
  {
    var r := Clean(pieces);
    forall k | 0 <= k < |r|
      ensures r[k] != "" && IsTrimmed(r[k])
    {
      CleanMembership(pieces, r[k]);
    }
  }

  /** A piece that is not blank is kept, trimmed. */
  lemma CleanKeeps(pieces: seq<string>, j: int)
    requires 0 <= j < |pieces| && !IsBlank(pieces[j])
    ensures Trim(pieces[j]) in Clean(pieces)
  {
    CleanMembership(pieces, Trim(pieces[j]));
  }

  /** `x` is a non-empty trim of some piece of `input` split at `sep`. */
  predicate ItemOf(x: string, input: string, sep: char)
  {
    x != "" && exists j :: 0 <= j < |Split(input, sep)| && x == Trim(Split(input, sep)[j])
  }

  /** `value.split(sep).map(item => item.trim()).filter(item => item)`. */
  function ParseList(input: string, sep: char): (r: seq<string>)
    ensures forall k :: 0 <= k < |r| ==> r[k] != "" && IsTrimmed(r[k]) && sep !in r[k]
    ensures forall x :: x in r <==> ItemOf(x, input, sep)
    ensures IsSubsequence(r, Trims(Split(input, sep)))
    ensures forall x :: multiset(r)[x] == if x != "" then multiset(Trims(Split(input, sep)))[x] else 0
  {
    var pieces := Split(input, sep);
    CleanItems(pieces);
    CleanAvoids(pieces, sep);
    CleanOrder(pieces);
    forall x ensures x in Clean(pieces) <==> x != "" && exists j :: 0 <= j < |pieces| && x == Trim(pieces[j]) {
      CleanMembership(pieces, x);
    }
    Clean(pieces)
  }

  /** Cleaning pieces free of a character leaves items free of it. */
  lemma CleanAvoids(pieces: seq<string>, c: char)
    requires forall k :: 0 <= k < |pieces| ==> c !in pieces[k]
    ensures forall k :: 0 <= k < |Clean(pieces)| ==> c !in Clean(pieces)[k]
  {
    var r := Clean(pieces);
    forall k | 0 <= k < |r|
      ensures c !in r[k]
    {
      CleanMembership(pieces, r[k]);
      var j :| 0 <= j < |pieces| && r[k] == Trim(pieces[j]);
      TrimInside(pieces[j], c);
    }
  }

  /** Trimming cannot introduce a character. */
  lemma TrimInside(s: string, c: char)
    requires c !in s
    ensures c !in Trim(s)
  {
    var t := TrimStart(s);
    assert t == s[|s| - |t|..];
    assert TrimEnd(t) == t[..|TrimEnd(t)|];
  }

  /** The amenities input: comma-separated. */
  function ParseAmenities(input: string): (r: seq<string>)
    ensures forall k :: 0 <= k < |r| ==> r[k] != "" && IsTrimmed(r[k]) && ',' !in r[k]
    ensures forall x :: x in r <==> ItemOf(x, input, ',')
    ensures IsSubsequence(r, Trims(Split(input, ',')))
    ensures forall x :: multiset(r)[x] == if x != "" then multiset(Trims(Split(input, ',')))[x] else 0
  {
    ParseList(input, ',')
  }

  /** The house-rules input: one rule per line. */
  function ParseRules(input: string): (r: seq<string>)
    ensures forall k :: 0 <= k < |r| ==> r[k] != "" && IsTrimmed(r[k]) && '\n' !in r[k]
    ensures forall x :: x in r <==> ItemOf(x, input, '\n')
    ensures IsSubsequence(r, Trims(Split(input, '\n')))
    ensures forall x :: multiset(r)[x] == if x != "" then multiset(Trims(Split(input, '\n')))[x] else 0
  {
    ParseList(input, '\n')
  }

  /** Items already clean and free of the separator survive parsing of their join
      unchanged, so a parsed list typed back in the same way parses to itself. */
  lemma ParseListOfJoin(items: seq<string>, sep: char)
    requires |items| >= 1
    requires forall k :: 0 <= k < |items| ==> items[k] != "" && IsTrimmed(items[k]) && sep !in items[k]
    ensures ParseList(Join(items, [sep]), sep) == items
  {
    SplitJoin(items, sep);
    CleanOfClean(items);
  }

  /** Trimming pieces that are already trimmed changes nothing. */
  lemma TrimsOfTrimmed(items: seq<string>)
    requires forall k :: 0 <= k < |items| ==> IsTrimmed(items[k])
    ensures Trims(items) == items
  {
    var ts := Trims(items);
    forall k | 0 <= k < |items|
      ensures ts[k] == items[k]
    {
      assert ts[k] == Trim(items[k]);
    }
  }

  /** Items already non-empty and trimmed are kept as they are. */
  lemma CleanOfClean(items: seq<string>)
    requires forall k :: 0 <= k < |items| ==> items[k] != "" && IsTrimmed(items[k])
    ensures Clean(items) == items
  {
    TrimsOfTrimmed(items);
    FilterAll(items, NonEmpty);
  }

  /** The host test of `fetchHostListings`: `listing.host === user._id` or
      `listing.host?._id === user._id`. */
  predicate HostedBy(l: Card, user: Id)
  {
    match l.host
    case HostId(id) => id == user
    case HostDoc(docId) => docId == Some(user)
    case NoHost => false
  }

  /** The console's own listings among those fetched, in fetched order. */
  function HostListings(fetched: seq<Card>, user: Id): (r: seq<Card>)
    ensures forall k :: 0 <= k < |r| ==> HostedBy(r[k], user)
    ensures forall x :: multiset(r)[x] == if HostedBy(x, user) then multiset(fetched)[x] else 0
    ensures IsSubsequence(r, fetched)
  {
    Seqs.Filter(fetched, (l: Card) => HostedBy(l, user))
  }

  const PreviewLength: nat := 100

  /** The description shown on a listing card: the first 100 characters and "..." when
      longer, "No description" when missing or empty, otherwise the description. */
  function Preview(description: Option<string>): (r: string)
    ensures description.None? || description == Some("") ==> r == "No description"
    ensures description.Some? && |description.value| > PreviewLength ==>
      |r| == PreviewLength + 3 && r[..PreviewLength] == description.value[..PreviewLength]
      && r[PreviewLength..] == "..."
    ensures description.Some? && 0 < |description.value| <= PreviewLength ==> r == description.value
    ensures |r| <= PreviewLength + 3 || r == "No description"
  {
    if description.Some? && |description.value| > PreviewLength then
      description.value[..PreviewLength] + "..."
    else if description.Some? && description.value != "" then description.value
    else "No description"
  }
}
