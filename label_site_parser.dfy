/**
 * The label page parser: it cuts one downloaded label page into regions, fills a
 * fresh label field by field, and decides for each related collection whether to
 * reuse what the incoming entity already holds, to load it, or to leave it empty.
 *
 * The page download, the HTML-to-text rendering, the line-separator rendering,
 * the roster, release and link sub-parsers and the image download are not part of
 * this model; they are the collaborators in `Services`, and a failure of one of
 * them is `None`.
 */
module LabelSite {
  import opened Outcomes
  import opened JavaStrings
  import opened Entities
  import opened LabelFields

  /** How the roster and release pages are ordered; `NoStyle` (NONE) switches a collection off. */
  datatype ParseStyle = NoStyle | BandSearchMode | GenreSearchMode | CountrySearchMode {
    /** The number the site's request carries for the style. */
    function AsSearchNumber(): (n: int)
      ensures this == NoStyle ==> n == -1
      ensures this == BandSearchMode ==> n == 0
      ensures this == GenreSearchMode ==> n == 1
      ensures this == CountrySearchMode ==> n == 2
    {
      match this
      case NoStyle => -1
      case BandSearchMode => 0
      case GenreSearchMode => 1
      case CountrySearchMode => 2
    }
  }

  /** What the parser is asked to load besides the page itself. */
  datatype LoadOptions = LoadOptions(
    loadImage: bool,
    loadLinks: bool,
    currentRoster: ParseStyle,
    pastRoster: ParseStyle,
    releases: ParseStyle)

  /**
   * The collaborators. The roster and release loaders are called with the label id,
   * the page size, the flag `true` and the style; `links` is the link sub-parser for
   * a label id and `image` the image download. `None` is a caught failure.
   */
  datatype Services = Services(
    text: string -> string,
    lineSeparated: string -> string,
    currentRoster: (int, int, bool, ParseStyle) -> Option<seq<Band>>,
    pastRoster: (int, int, bool, ParseStyle) -> Option<map<Band, int>>,
    releases: (int, int, bool, ParseStyle) -> Option<map<Band, seq<Disc>>>,
    links: int -> Option<seq<Link>>,
    image: string -> Option<Image>)

  /** The page size handed to the roster and release loaders (Byte.MAX_VALUE). */
  const RosterPageSize := 127

  // ---------------------------------------------------------------------------
  // Reuse or load

  /**
   * The policy every related collection follows: what the entity already holds is
   * returned as it is; an empty one is loaded only when loading is enabled, and a
   * failed load gives the empty collection.
   */
  function ReuseOrLoad<C(==)>(existing: C, empty: C, enabled: bool, load: () -> Option<C>): (r: C)
    ensures existing != empty ==> r == existing
    ensures existing == empty && !enabled ==> r == empty
    ensures existing == empty && enabled ==> r == load().GetOr(empty)
  {
    if existing != empty then existing
    else if enabled then load().GetOr(empty)
    else empty
  }

  /**
   * parseCurrentRoster: the entity's own roster when it has one; otherwise nothing
   * for NONE, and the loaded roster (empty on failure) for any other style.
   */
  function CurrentRoster(entity: LabelData, style: ParseStyle, services: Services): (r: seq<Band>)
    ensures entity.currentRoster != [] ==> r == entity.currentRoster
    ensures entity.currentRoster == [] && style == NoStyle ==> r == []
    ensures entity.currentRoster == [] && style != NoStyle ==>
      r == services.currentRoster(entity.id, RosterPageSize, true, style).GetOr([])
  {
    ReuseOrLoad(entity.currentRoster, [], style != NoStyle,
      () => services.currentRoster(entity.id, RosterPageSize, true, style))
  }

  /** parsePastRoster: the same policy for the past roster and its years. */
  function PastRoster(entity: LabelData, style: ParseStyle, services: Services): (r: map<Band, int>)
    ensures entity.pastRoster != map[] ==> r == entity.pastRoster
    ensures entity.pastRoster == map[] && style == NoStyle ==> r == map[]
    ensures entity.pastRoster == map[] && style != NoStyle ==>
      r == services.pastRoster(entity.id, RosterPageSize, true, style).GetOr(map[])
  {
    ReuseOrLoad(entity.pastRoster, map[], style != NoStyle,
      () => services.pastRoster(entity.id, RosterPageSize, true, style))
  }

  /** parseReleases: the same policy for the releases per band. */
  function Releases(entity: LabelData, style: ParseStyle, services: Services): (r: map<Band, seq<Disc>>)
    ensures entity.releases != map[] ==> r == entity.releases
    ensures entity.releases == map[] && style == NoStyle ==> r == map[]
    ensures entity.releases == map[] && style != NoStyle ==>
      r == services.releases(entity.id, RosterPageSize, true, style).GetOr(map[])
  {
    ReuseOrLoad(entity.releases, map[], style != NoStyle,
      () => services.releases(entity.id, RosterPageSize, true, style))
  }

  /** parseLinks: the entity's own links when it has some; otherwise loaded only when asked for. */
  function Links(entity: LabelData, loadLinks: bool, services: Services): (r: seq<Link>)
    ensures entity.links != [] ==> r == entity.links
    ensures entity.links == [] && !loadLinks ==> r == []
    ensures entity.links == [] && loadLinks ==> r == services.links(entity.id).GetOr([])
  {
    ReuseOrLoad(entity.links, [], loadLinks, () => services.links(entity.id))
  }

  /** parseLabelLogo: the download of the logo, only when images are wanted and a URL was found. */
  function LabelLogo(logoUrl: Option<string>, loadImage: bool, image: string -> Option<Image>): (r: Option<Image>)
    ensures !loadImage || logoUrl.None? ==> r.None?
    ensures loadImage && logoUrl.Some? ==> r == image(logoUrl.value)
  {
    if loadImage && logoUrl.Some? then image(logoUrl.value) else None
  }

  // ---------------------------------------------------------------------------
  // Regions of the page

  /** The upper left regions: the page up to the first "</dl>", split at "<dd". */
  function LeftRegions(html: string): (r: Result<seq<string>>)
    ensures r.Ok? <==> IndexOf(html, "</dl>") >= 0
    ensures r.Ok? ==> r.value == Split(html[..IndexOf(html, "</dl>")], "<dd")
  {
    var region :- Substring(html, 0, IndexOf(html, "</dl>"));
    Ok(Split(region, "<dd"))
  }

  /**
   * The upper right regions: what lies between the first two "</dl>", split at
   * "<dd>". Without any "</dl>" the search starts at offset 4 (-1 + 5).
   */
  function RightRegions(html: string): (r: Result<seq<string>>)
    ensures r.Ok? <==> var b := IndexOf(html, "</dl>") + 5; b <= |html| && Contains(html[b..], "</dl>")
    ensures r.Ok? ==> var b := IndexOf(html, "</dl>") + 5;
      r.value == Split(html[b..b + IndexOf(html[b..], "</dl>")], "<dd>")
  {
    var b := IndexOf(html, "</dl>") + 5;
    var rest :- Substring(html, b, |html|);
    assert rest == html[b..];
    var region :- Substring(rest, 0, IndexOf(rest, "</dl>"));
    assert region == html[b..b + IndexOf(rest, "</dl>")];
    Ok(Split(region, "<dd>"))
  }

  /** The contact block: from after `<p id="label_contact">` up to the first "</p>". */
  function ContactRegion(html: string): (r: Result<string>)
    ensures r.Ok? ==> UpTo(html, IndexOf(html, ContactMarker) + 22, "</p>", r.value)
    ensures r.Ok? ==> !Contains(r.value, "</p>")
  {
    UpToFirst(html, IndexOf(html, ContactMarker) + 22, "</p>")
  }

  /** A contact block behind the first contact marker, closed by the first "</p>" after it, is found whole. */
  lemma ContactRegionOf(pre: string, contact: string, post: string)
    requires IndexOf(pre + ContactMarker, ContactMarker) == |pre|
    requires IndexOf(contact + "</p>", "</p>") == |contact|
    ensures ContactRegion(pre + ContactMarker + contact + "</p>" + post) == Ok(contact)
  {
    var html := pre + ContactMarker + contact + "</p>" + post;
    assert html == pre + ContactMarker + (contact + "</p>" + post);
    FirstMarker(pre, ContactMarker, contact + "</p>" + post);
    assert |ContactMarker| == 22;
    UpToFirstOf(pre + ContactMarker, contact, "</p>", post);
  }

  /** The fields of the left side: address, country and phone number out of regions 1, 2 and 3. */
  function LeftFields(d: LabelData, u: seq<string>, lineSeparated: string -> string): (r: Result<LabelData>)
    ensures r.Ok? <==> |u| >= 4 && Address(u[1], lineSeparated).Ok? && CountryName(u[2]).Ok? && PhoneNumber(u[3]).Ok?
    ensures r.Ok? ==> r.value == d.(address := Address(u[1], lineSeparated).value,
                                    country := CountryName(u[2]).value,
                                    phoneNumber := PhoneNumber(u[3]).value)
  {
    var p1 :- At(u, 1);
    var address :- Address(p1, lineSeparated);
    var p2 :- At(u, 2);
    var country :- CountryName(p2);
    var p3 :- At(u, 3);
    var phone :- PhoneNumber(p3);
    Ok(d.(address := address, country := country, phoneNumber := phone))
  }

  /** The parent label of the right side: parsed from region 4 only when region 3 announces it. */
  function ParentOf(d: LabelData, p3: string, p4: string): (r: Result<Option<LabelRef>>)
    ensures !Contains(p3, ParentMarker) ==> r == Ok(d.parentLabel)
    ensures Contains(p3, ParentMarker) ==> (r.Ok? <==> ParentLabel(p4).Ok?)
    ensures Contains(p3, ParentMarker) && r.Ok? ==> r.value == Some(ParentLabel(p4).value)
  {
    if Contains(p3, ParentMarker) then
      var parent :- ParentLabel(p4);
      Ok(Some(parent))
    else Ok(d.parentLabel)
  }

  /** Every extraction of the right side succeeds. */
  predicate RightFieldsParse(d: LabelData, u: seq<string>, text: string -> string) {
    && |u| >= 5 && StatusName(u[1]).Ok? && SpecialisedIn(u[2]).Ok? && FoundingDate(u[3]).Ok?
    && SubLabels(u[4], text).Ok? && ParentOf(d, u[3], u[4]).Ok?
  }

  /**
   * The fields of the right side: status, specialisation, founding date and
   * sub-labels out of regions 1 to 4, the parent label when region 3 announces it,
   * and the online shopping flag out of the last region.
   */
  function RightFields(d: LabelData, u: seq<string>, text: string -> string): (r: Result<LabelData>)
    ensures r.Ok? <==> RightFieldsParse(d, u, text)
    ensures r.Ok? ==> r.value == d.(status := StatusName(u[1]).value,
                                    specialisation := SpecialisedIn(u[2]).value,
                                    foundingDate := FoundingDate(u[3]).value,
                                    subLabels := SubLabels(u[4], text).value,
                                    parentLabel := ParentOf(d, u[3], u[4]).value,
                                    onlineShopping := HasOnlineShopping(u[|u| - 1], text))
    ensures r.Ok? ==> RightRegionFieldsOf(u, text, r.value)
  {
    var p1 :- At(u, 1);
    var status :- StatusName(p1);
    var p2 :- At(u, 2);
    var specialisation :- SpecialisedIn(p2);
    var p3 :- At(u, 3);
    var date :- FoundingDate(p3);
    var p4 :- At(u, 4);
    var subLabels :- SubLabels(p4, text);
    var parent :- ParentOf(d, p3, p4);
    // region 4 exists, so the last region does too
    Ok(d.(status := status, specialisation := specialisation, foundingDate := date,
          subLabels := subLabels, parentLabel := parent, onlineShopping := HasOnlineShopping(u[|u| - 1], text)))
  }

  /** The fields of the contact block: the website link and the email. */
  function ContactFields(d: LabelData, contact: string, text: string -> string): (r: Result<LabelData>)
    ensures r.Ok? <==> WebsiteLink(contact, text).Ok? && LabelEmail(contact).Ok?
    ensures r.Ok? ==> r.value == d.(webSiteURL := WebsiteLink(contact, text).value, email := LabelEmail(contact).value)
  {
    var site :- WebsiteLink(contact, text);
    var email :- LabelEmail(contact);
    Ok(d.(webSiteURL := site, email := email))
  }

  /** The address, country and phone number of `l` are those of left regions 1, 2 and 3 of the page. */
  predicate LeftFieldsOf(html: string, lineSeparated: string -> string, l: LabelData) {
    && LeftRegions(html).Ok? && |LeftRegions(html).value| >= 4
    && var u := LeftRegions(html).value;
    && Address(u[1], lineSeparated) == Ok(l.address)
    && CountryName(u[2]) == Ok(l.country)
    && PhoneNumber(u[3]) == Ok(l.phoneNumber)
  }

  /**
   * The status, specialisation, founding date, sub-labels and online shopping flag
   * of `l` are those of right regions 1 to 4 and of the last one, and its parent is
   * the one region 4 names whenever region 3 announces a parent.
   */
  predicate RightFieldsOf(html: string, text: string -> string, l: LabelData) {
    RightRegions(html).Ok? && RightRegionFieldsOf(RightRegions(html).value, text, l)
  }

  /** RightFieldsOf on regions already cut. */
  predicate RightRegionFieldsOf(u: seq<string>, text: string -> string, l: LabelData) {
    && |u| >= 5
    && StatusName(u[1]) == Ok(l.status)
    && SpecialisedIn(u[2]) == Ok(l.specialisation)
    && FoundingDate(u[3]) == Ok(l.foundingDate)
    && SubLabels(u[4], text) == Ok(l.subLabels)
    && (Contains(u[3], ParentMarker) ==> l.parentLabel.Some? && ParentLabel(u[4]) == Ok(l.parentLabel.value))
    && l.onlineShopping == HasOnlineShopping(u[|u| - 1], text)
  }

  /** The website and email of `l` are those of the page's contact block. */
  predicate ContactFieldsOf(html: string, text: string -> string, l: LabelData) {
    && ContactRegion(html).Ok?
    && WebsiteLink(ContactRegion(html).value, text) == Ok(l.webSiteURL)
    && LabelEmail(ContactRegion(html).value) == Ok(l.email)
  }

  /** parseLeftSide: the left side's fields, read from their regions; no other field changes. */
  function LeftSide(d: LabelData, html: string, lineSeparated: string -> string): (r: Result<LabelData>)
    ensures r.Ok? ==> r.value == d.(address := r.value.address, country := r.value.country, phoneNumber := r.value.phoneNumber)
    ensures r.Ok? ==> LeftFieldsOf(html, lineSeparated, r.value)
  {
    var u :- LeftRegions(html);
    LeftFields(d, u, lineSeparated)
  }

  /** LeftSide once the regions are cut and every extraction succeeds. */
  lemma LeftSideOfRegions(d: LabelData, html: string, lineSeparated: string -> string, u: seq<string>)
    requires LeftRegions(html) == Ok(u) && |u| >= 4
    requires Address(u[1], lineSeparated).Ok? && CountryName(u[2]).Ok? && PhoneNumber(u[3]).Ok?
    ensures LeftSide(d, html, lineSeparated) == Ok(d.(address := Address(u[1], lineSeparated).value,
                                                      country := CountryName(u[2]).value,
                                                      phoneNumber := PhoneNumber(u[3]).value))
  {
    assert LeftSide(d, html, lineSeparated) == LeftFields(d, u, lineSeparated);
    assert LeftFields(d, u, lineSeparated).Ok?;
  }

  /**
   * parseRightSide: the right side's fields; no other field changes, and the
   * parent label changes exactly when region 3 announces one.
   */
  function RightSide(d: LabelData, html: string, text: string -> string): (r: Result<LabelData>)
    ensures r.Ok? ==> r.value == d.(status := r.value.status, specialisation := r.value.specialisation,
                                    foundingDate := r.value.foundingDate, subLabels := r.value.subLabels,
                                    parentLabel := r.value.parentLabel, onlineShopping := r.value.onlineShopping)
    ensures r.Ok? ==> RightRegions(html).Ok? && |RightRegions(html).value| >= 5
    ensures r.Ok? && Contains(RightRegions(html).value[3], ParentMarker) ==> r.value.parentLabel.Some?
    ensures r.Ok? && !Contains(RightRegions(html).value[3], ParentMarker) ==> r.value.parentLabel == d.parentLabel
    ensures r.Ok? ==> RightFieldsOf(html, text, r.value)
  {
    var u :- RightRegions(html);
    RightFields(d, u, text)
  }

  /** RightSide once the regions are cut and every extraction succeeds. */
  lemma RightSideOfRegions(d: LabelData, html: string, text: string -> string, u: seq<string>)
    requires RightRegions(html) == Ok(u) && RightFieldsParse(d, u, text)
    ensures RightSide(d, html, text) == Ok(d.(status := StatusName(u[1]).value,
                                              specialisation := SpecialisedIn(u[2]).value,
                                              foundingDate := FoundingDate(u[3]).value,
                                              subLabels := SubLabels(u[4], text).value,
                                              parentLabel := ParentOf(d, u[3], u[4]).value,
                                              onlineShopping := HasOnlineShopping(u[|u| - 1], text)))
  {
    assert RightSide(d, html, text) == RightFields(d, u, text);
    assert RightFields(d, u, text).Ok?;
  }

  /** parseContactData: the contact block's fields; no other field changes. */
  function ContactData(d: LabelData, html: string, text: string -> string): (r: Result<LabelData>)
    ensures r.Ok? ==> r.value == d.(webSiteURL := r.value.webSiteURL, email := r.value.email)
    ensures r.Ok? <==> ContactRegion(html).Ok? && ContactFields(d, ContactRegion(html).value, text).Ok?
    ensures r.Ok? ==> ContactFieldsOf(html, text, r.value)
  {
    var contact :- ContactRegion(html);
    ContactFields(d, contact, text)
  }

  /** The lower part of the page: collections, links, notes and logo. */
  function LowerPart(d: LabelData, entity: LabelData, html: string, options: LoadOptions, services: Services): (r: Result<LabelData>)
    ensures r.Ok? <==> AdditionalNotes(html, services.lineSeparated).Ok? && LogoUrl(html).Ok?
    ensures r.Ok? ==> r.value == d.(currentRoster := r.value.currentRoster, pastRoster := r.value.pastRoster,
                                    releases := r.value.releases, links := r.value.links,
                                    additionalNotes := r.value.additionalNotes, logoUrl := r.value.logoUrl,
                                    logo := r.value.logo)
    ensures r.Ok? ==> && r.value.currentRoster == CurrentRoster(entity, options.currentRoster, services)
                      && r.value.pastRoster == PastRoster(entity, options.pastRoster, services)
                      && r.value.releases == Releases(entity, options.releases, services)
                      && r.value.links == d.links + Links(entity, options.loadLinks, services)
    ensures r.Ok? ==> && AdditionalNotes(html, services.lineSeparated) == Ok(r.value.additionalNotes)
                      && LogoUrl(html) == Ok(r.value.logoUrl)
                      && r.value.logo == LabelLogo(r.value.logoUrl, options.loadImage, services.image)
  {
    var notes :- AdditionalNotes(html, services.lineSeparated);
    var logoUrl :- LogoUrl(html);
    Ok(d.(currentRoster := CurrentRoster(entity, options.currentRoster, services),
          pastRoster := PastRoster(entity, options.pastRoster, services),
          releases := Releases(entity, options.releases, services),
          links := d.links + Links(entity, options.loadLinks, services),
          additionalNotes := notes,
          logoUrl := logoUrl,
          logo := LabelLogo(logoUrl, options.loadImage, services.image)))
  }

  /** Every extraction of the left side succeeds: the three left regions exist and parse. */
  predicate LeftExtracts(html: string, lineSeparated: string -> string) {
    && LeftRegions(html).Ok? && |LeftRegions(html).value| >= 4
    && var u := LeftRegions(html).value;
    && Address(u[1], lineSeparated).Ok? && CountryName(u[2]).Ok? && PhoneNumber(u[3]).Ok?
  }

  /**
   * Every extraction of the right side succeeds: the four right regions exist and
   * parse, and so does the parent when region 3 announces it.
   */
  predicate RightExtracts(html: string, text: string -> string) {
    && RightRegions(html).Ok? && |RightRegions(html).value| >= 5
    && var u := RightRegions(html).value;
    && StatusName(u[1]).Ok? && SpecialisedIn(u[2]).Ok? && FoundingDate(u[3]).Ok?
    && SubLabels(u[4], text).Ok?
    && (Contains(u[3], ParentMarker) ==> ParentLabel(u[4]).Ok?)
  }

  /** Every extraction of the contact block succeeds. */
  predicate ContactExtracts(html: string, text: string -> string) {
    && ContactRegion(html).Ok?
    && WebsiteLink(ContactRegion(html).value, text).Ok?
    && LabelEmail(ContactRegion(html).value).Ok?
  }

  /** Every extraction of the upper and middle part succeeds. */
  predicate UpperExtracts(html: string, services: Services) {
    && LabelName(html).Ok?
    && LeftExtracts(html, services.lineSeparated)
    && RightExtracts(html, services.text)
    && ContactExtracts(html, services.text)
  }

  /** Every extraction of the page succeeds: the upper part, the notes and the logo URL. */
  predicate PageExtracts(html: string, services: Services) {
    && UpperExtracts(html, services)
    && AdditionalNotes(html, services.lineSeparated).Ok?
    && LogoUrl(html).Ok?
  }

  /** The fields read from the upper and middle part of the page, on a fresh label. */
  function UpperPart(id: int, html: string, services: Services): (r: Result<LabelData>)
    ensures r.Ok? ==> r.value.id == id && LabelName(html) == Ok(r.value.name) && r.value.links == []
    ensures r.Ok? ==> RightRegions(html).Ok? && |RightRegions(html).value| >= 5
    ensures r.Ok? ==> (r.value.parentLabel.Some? <==> Contains(RightRegions(html).value[3], ParentMarker))
    ensures r.Ok? ==> && LeftFieldsOf(html, services.lineSeparated, r.value)
                      && RightFieldsOf(html, services.text, r.value)
                      && ContactFieldsOf(html, services.text, r.value)
  {
    var name :- LabelName(html);
    var d1 :- LeftSide(NewLabelData(id).(name := name), html, services.lineSeparated);
    var d2 :- RightSide(d1, html, services.text);
    ContactData(d2, html, services.text)
  }

  /**
   * parse as a value: a fresh label with the entity's id, filled from the page in
   * the order of the Java method; the first exception aborts the parse.
   */
  function ParseLabel(entity: LabelData, html: string, options: LoadOptions, services: Services): (r: Result<LabelData>)
    ensures r.Ok? ==> r.value.id == entity.id
    ensures r.Ok? ==> LabelName(html) == Ok(r.value.name)
    ensures r.Ok? ==> && r.value.currentRoster == CurrentRoster(entity, options.currentRoster, services)
                      && r.value.pastRoster == PastRoster(entity, options.pastRoster, services)
                      && r.value.releases == Releases(entity, options.releases, services)
                      && r.value.links == Links(entity, options.loadLinks, services)
    ensures r.Ok? ==> && AdditionalNotes(html, services.lineSeparated) == Ok(r.value.additionalNotes)
                      && LogoUrl(html) == Ok(r.value.logoUrl)
                      && r.value.logo == LabelLogo(r.value.logoUrl, options.loadImage, services.image)
    ensures r.Ok? ==> RightRegions(html).Ok? && |RightRegions(html).value| >= 5
    ensures r.Ok? ==> (r.value.parentLabel.Some? <==> Contains(RightRegions(html).value[3], ParentMarker))
    ensures r.Ok? ==> && LeftFieldsOf(html, services.lineSeparated, r.value)
                      && RightFieldsOf(html, services.text, r.value)
                      && ContactFieldsOf(html, services.text, r.value)
  {
    var upper :- UpperPart(entity.id, html, services);
    LowerPart(upper, entity, html, options, services)
  }

  // ---------------------------------------------------------------------------
  // Properties of the parse

  /** The left side succeeds, whatever the record it fills, exactly when its extractions do. */
  lemma LeftSucceeds(d: LabelData, html: string, lineSeparated: string -> string)
    ensures LeftSide(d, html, lineSeparated).Ok? <==> LeftExtracts(html, lineSeparated)
  {
  }

  /** The right side succeeds, whatever the record it fills, exactly when its extractions do. */
  lemma RightSucceeds(d: LabelData, html: string, text: string -> string)
    ensures RightSide(d, html, text).Ok? <==> RightExtracts(html, text)
  {
    if RightRegions(html).Ok? {
      assert RightSide(d, html, text) == RightFields(d, RightRegions(html).value, text);
    }
  }

  /** The contact data succeed, whatever the record they fill, exactly when the contact extractions do. */
  lemma ContactSucceeds(d: LabelData, html: string, text: string -> string)
    ensures ContactData(d, html, text).Ok? <==> ContactExtracts(html, text)
  {
  }

  /** The upper part succeeds exactly when every extraction it makes does. */
  lemma UpperSucceeds(id: int, html: string, services: Services)
    ensures UpperPart(id, html, services).Ok? <==> UpperExtracts(html, services)
  {
    var name := LabelName(html);
    if name.Ok? {
      var d0 := NewLabelData(id).(name := name.value);
      LeftSucceeds(d0, html, services.lineSeparated);
      var d1 := LeftSide(d0, html, services.lineSeparated);
      if d1.Ok? {
        RightSucceeds(d1.value, html, services.text);
        var d2 := RightSide(d1.value, html, services.text);
        if d2.Ok? {
          ContactSucceeds(d2.value, html, services.text);
        }
      }
    }
  }

  /** The parse succeeds exactly when every extraction from the page does. */
  lemma ParseSucceeds(entity: LabelData, html: string, options: LoadOptions, services: Services)
    ensures ParseLabel(entity, html, options, services).Ok? <==> PageExtracts(html, services)
  {
    UpperSucceeds(entity.id, html, services);
    var upper := UpperPart(entity.id, html, services);
    if upper.Ok? {
      assert ParseLabel(entity, html, options, services) == LowerPart(upper.value, entity, html, options, services);
    }
  }

  /** Different styles are sent as different numbers. */
  lemma SearchNumbersDistinct(a: ParseStyle, b: ParseStyle)
    ensures a.AsSearchNumber() == b.AsSearchNumber() <==> a == b
  {
  }

  /** When nothing is loaded, the loader has no say in the outcome. */
  lemma ReuseIgnoresLoader<C>(existing: C, empty: C, enabled: bool, load1: () -> Option<C>, load2: () -> Option<C>)
    requires existing != empty || !enabled
    ensures ReuseOrLoad(existing, empty, enabled, load1) == ReuseOrLoad(existing, empty, enabled, load2)
  {
  }

  /** Handing the outcome back as the existing collection gives the same outcome. */
  lemma ReuseOrLoadIdempotent<C>(existing: C, empty: C, enabled: bool, load: () -> Option<C>)
    ensures ReuseOrLoad(ReuseOrLoad(existing, empty, enabled, load), empty, enabled, load)
         == ReuseOrLoad(existing, empty, enabled, load)
  {
  }

  /** Collections the entity already holds come back unchanged. */
  lemma ExistingCollectionsReused(entity: LabelData, html: string, options: LoadOptions, services: Services)
    requires ParseLabel(entity, html, options, services).Ok?
    ensures var l := ParseLabel(entity, html, options, services).value;
      && (entity.currentRoster != [] ==> l.currentRoster == entity.currentRoster)
      && (entity.pastRoster != map[] ==> l.pastRoster == entity.pastRoster)
      && (entity.releases != map[] ==> l.releases == entity.releases)
      && (entity.links != [] ==> l.links == entity.links)
  {
  }

  /** A collection that is switched off and not held by the entity stays empty. */
  lemma DisabledCollectionsEmpty(entity: LabelData, html: string, options: LoadOptions, services: Services)
    requires ParseLabel(entity, html, options, services).Ok?
    ensures var l := ParseLabel(entity, html, options, services).value;
      && (entity.currentRoster == [] && options.currentRoster == NoStyle ==> l.currentRoster == [])
      && (entity.pastRoster == map[] && options.pastRoster == NoStyle ==> l.pastRoster == map[])
      && (entity.releases == map[] && options.releases == NoStyle ==> l.releases == map[])
      && (entity.links == [] && !options.loadLinks ==> l.links == [])
  {
  }

  /** A collection whose load fails is empty. */
  lemma FailedLoadsEmpty(entity: LabelData, html: string, options: LoadOptions, services: Services)
    requires ParseLabel(entity, html, options, services).Ok?
    ensures var l := ParseLabel(entity, html, options, services).value;
      && (entity.currentRoster == [] && services.currentRoster(entity.id, RosterPageSize, true, options.currentRoster).None?
          ==> l.currentRoster == [])
      && (entity.pastRoster == map[] && services.pastRoster(entity.id, RosterPageSize, true, options.pastRoster).None?
          ==> l.pastRoster == map[])
      && (entity.releases == map[] && services.releases(entity.id, RosterPageSize, true, options.releases).None?
          ==> l.releases == map[])
      && (entity.links == [] && services.links(entity.id).None? ==> l.links == [])
  {
  }

  /** No logo is fetched without the image option, and there is neither URL nor logo without the marker. */
  lemma NoLogoUnlessWanted(entity: LabelData, html: string, options: LoadOptions, services: Services)
    requires ParseLabel(entity, html, options, services).Ok?
    ensures var l := ParseLabel(entity, html, options, services).value;
      && (!options.loadImage ==> l.logo.None?)
      && (!Contains(html, ImageMarker) ==> l.logoUrl.None? && l.logo.None?)
      && (options.loadImage && l.logoUrl.Some? ==> l.logo == services.image(l.logoUrl.value))
  {
  }

  /** Without the notes block the notes are empty. */
  lemma NoNotesWithoutMarker(entity: LabelData, html: string, options: LoadOptions, services: Services)
    requires ParseLabel(entity, html, options, services).Ok?
    requires !Contains(html, NotesMarker)
    ensures ParseLabel(entity, html, options, services).value.additionalNotes == ""
  {
  }

  /** One more successfully parsed piece extends the list of entries by its own entry. */
  lemma Appended(pieces: seq<string>, text: string -> string, labels: seq<LabelRef>, entry: LabelRef)
    requires |labels| < |pieces| && SubLabel(pieces[|labels|], text) == Ok(entry)
    requires forall j :: 0 <= j < |labels| ==> SubLabel(pieces[j], text) == Ok(labels[j])
    ensures forall j :: 0 <= j < |labels| + 1 ==> SubLabel(pieces[j], text) == Ok((labels + [entry])[j])
  {
    var next := labels + [entry];
    forall j | 0 <= j < |labels| + 1
      ensures SubLabel(pieces[j], text) == Ok(next[j])
    {
      if j < |labels| {
        assert next[j] == labels[j];
      }
    }
  }

  // ---------------------------------------------------------------------------
  // The parser object

  /**
   * A label site parser: the incoming entity, the downloaded page, the load
   * options and the collaborators, all fixed at construction. Its methods fill a
   * label through its fields, step by step, as the Java setters do.
   */
  class LabelSiteParser {
    const entity: LabelData
    const html: string
    const options: LoadOptions
    const services: Services

    constructor (entity: LabelData, html: string, loadImages: bool, loadLinks: bool,
                 currentRoster: ParseStyle, pastRoster: ParseStyle, releases: ParseStyle, services: Services)
      ensures this.entity == entity && this.html == html && this.services == services
      ensures options == LoadOptions(loadImages, loadLinks, currentRoster, pastRoster, releases)
    {
      this.entity := entity;
      this.html := html;
      this.options := LoadOptions(loadImages, loadLinks, currentRoster, pastRoster, releases);
      this.services := services;
    }

    /** parseLeftSide on a label object. */
    method ParseLeftSide(lab: Label) returns (r: Result<()>)
      modifies lab
      ensures r.Ok? <==> LeftSide(old(lab.Data()), html, services.lineSeparated).Ok?
      ensures r.Ok? ==> lab.Data() == LeftSide(old(lab.Data()), html, services.lineSeparated).value
    {
      var u :- LeftRegions(html);
      var p1 :- At(u, 1);
      var address :- Address(p1, services.lineSeparated);
      lab.SetAddress(address);
      var p2 :- At(u, 2);
      var country :- CountryName(p2);
      lab.SetCountry(country);
      var p3 :- At(u, 3);
      var phone :- PhoneNumber(p3);
      lab.SetPhoneNumber(phone);
      return Ok(());
    }

    /**
     * parseSubLabels on a list: nothing when the trimmed fragment fails the guard,
     * otherwise the entry of every comma-separated piece appended in order.
     */
    method ParseSubLabels(part: string) returns (r: Result<seq<LabelRef>>)
      ensures r == SubLabels(part, services.text)
    {
      var text := services.text;
      var labelList: seq<LabelRef> := [];
      if !SubLabelGuard(Trim(part)) {
        return Ok(labelList);
      }
      var labelLinks := Split(part, ",");
      for i := 0 to |labelLinks|
        invariant |labelList| == i
        invariant forall j :: 0 <= j < i ==> SubLabel(labelLinks[j], text) == Ok(labelList[j])
      {
        var entry := SubLabel(labelLinks[i], text);
        if entry.Err? {
          SubLabelsOfFailure(part, text, labelLinks, i);
          return Err(entry.failure);
        }
        Appended(labelLinks, text, labelList, entry.value);
        labelList := labelList + [entry.value];
      }
      SubLabelsOfPieces(part, text, labelLinks, labelList);
      return Ok(labelList);
    }

    /** parseRightSide on a label object. */
    method ParseRightSide(lab: Label) returns (r: Result<()>)
      modifies lab
      ensures r.Ok? <==> RightSide(old(lab.Data()), html, services.text).Ok?
      ensures r.Ok? ==> lab.Data() == RightSide(old(lab.Data()), html, services.text).value
    {
      ghost var d := lab.Data();
      var u :- RightRegions(html);
      var p1 :- At(u, 1);
      var status :- StatusName(p1);
      lab.SetStatus(status);
      var p2 :- At(u, 2);
      var specialisation :- SpecialisedIn(p2);
      lab.SetSpecialisation(specialisation);
      var p3 :- At(u, 3);
      var date :- FoundingDate(p3);
      lab.SetFoundingDate(date);
      var p4 :- At(u, 4);
      var subLabels :- ParseSubLabels(p4);
      lab.SetSubLabels(subLabels);
      if Contains(p3, ParentMarker) {
        var parent :- ParentLabel(p4);
        lab.SetParentLabel(Some(parent));
      }
      lab.SetOnlineShopping(HasOnlineShopping(u[|u| - 1], services.text));
      RightSideOfRegions(d, html, services.text, u);
      return Ok(());
    }

    /** parseContactData on a label object. */
    method ParseContactData(lab: Label) returns (r: Result<()>)
      modifies lab
      ensures r.Ok? <==> ContactData(old(lab.Data()), html, services.text).Ok?
      ensures r.Ok? ==> lab.Data() == ContactData(old(lab.Data()), html, services.text).value
    {
      var contact :- ContactRegion(html);
      var site :- WebsiteLink(contact, services.text);
      lab.SetWebSiteURL(site);
      var email :- LabelEmail(contact);
      lab.SetEmail(email);
      return Ok(());
    }

    /**
     * parse: a fresh label with the entity's id, filled from the page by the
     * setters in the order of the Java method; the first exception aborts.
     */
    method Parse() returns (r: Result<Label>)
      ensures r.Ok? <==> ParseLabel(entity, html, options, services).Ok?
      ensures r.Ok? ==> fresh(r.value) && r.value.Data() == ParseLabel(entity, html, options, services).value
    {
      var lab := new Label(entity.id);
      var name :- LabelName(html);
      lab.SetName(name);
      // upper part
      var left :- ParseLeftSide(lab);
      var right :- ParseRightSide(lab);
      // middle part
      var contact :- ParseContactData(lab);
      // lower part
      lab.SetCurrentRoster(CurrentRoster(entity, options.currentRoster, services));
      lab.SetPastRoster(PastRoster(entity, options.pastRoster, services));
      lab.SetReleases(Releases(entity, options.releases, services));
      lab.AddLink(Links(entity, options.loadLinks, services));
      var notes :- AdditionalNotes(html, services.lineSeparated);
      lab.SetAdditionalNotes(notes);
      var logoUrl :- LogoUrl(html);
      lab.SetLogoUrl(logoUrl);
      lab.SetLogo(LabelLogo(logoUrl, options.loadImage, services.image));
      return Ok(lab);
    }
  }
}
