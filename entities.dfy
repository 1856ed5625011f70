/**
 * The entities the label parser and the track search produce or read. Only the
 * fields the modelled code touches are kept.
 */
module Entities {
  import opened Outcomes

  /** A band, the key of the roster and release collections. */
  datatype Band = Band(id: int, name: string)

  /** A release of a band. */
  datatype Disc = Disc(id: int, name: string)

  /** A label known only by id and name, as `new Label(id, name)` builds for sub- and parent labels. */
  datatype LabelRef = LabelRef(id: int, name: string)

  /** A contact link; `NullLink` is what `new Link()` stands for when the page has no website. */
  datatype Link = NullLink | Link(name: string, url: string)

  /** A downloaded logo. */
  datatype Image = Image(bytes: seq<bv8>)

  /** Every field the label parser sets, as one value. */
  datatype LabelData = LabelData(
    id: int,
    name: string,
    address: string,
    country: string,          // the text handed to the country lookup
    phoneNumber: string,
    status: string,           // the text handed to the status lookup
    specialisation: string,
    foundingDate: string,
    subLabels: seq<LabelRef>,
    parentLabel: Option<LabelRef>,
    onlineShopping: bool,
    webSiteURL: Link,
    email: string,
    currentRoster: seq<Band>,
    pastRoster: map<Band, int>,
    releases: map<Band, seq<Disc>>,
    links: seq<Link>,
    additionalNotes: string,
    logoUrl: Option<string>,
    logo: Option<Image>)

  /** What `new Label(id)` holds before any setter runs. */
  function NewLabelData(id: int): (d: LabelData)
    ensures d.id == id && d.parentLabel.None? && d.links == []
    ensures d.currentRoster == [] && d.pastRoster == map[] && d.releases == map[]
  {
    LabelData(id, "", "", "", "", "", "", "", [], None, false, NullLink, "",
              [], map[], map[], [], "", None, None)
  }

  /** A label entity; the parser fills a fresh one through its setters. */
  class Label {
    const id: int
    var name: string
    var address: string
    var country: string
    var phoneNumber: string
    var status: string
    var specialisation: string
    var foundingDate: string
    var subLabels: seq<LabelRef>
    var parentLabel: Option<LabelRef>
    var onlineShopping: bool
    var webSiteURL: Link
    var email: string
    var currentRoster: seq<Band>
    var pastRoster: map<Band, int>
    var releases: map<Band, seq<Disc>>
    var links: seq<Link>
    var additionalNotes: string
    var logoUrl: Option<string>
    var logo: Option<Image>

    /** The label's fields as a value. */
    function Data(): LabelData
      reads this
    {
      LabelData(id, name, address, country, phoneNumber, status, specialisation,
                foundingDate, subLabels, parentLabel, onlineShopping, webSiteURL, email,
                currentRoster, pastRoster, releases, links, additionalNotes, logoUrl, logo)
    }

    constructor (id: int)
      ensures Data() == NewLabelData(id)
    {
      this.id := id;
      name, address, country, phoneNumber := "", "", "", "";
      status, specialisation, foundingDate := "", "", "";
      subLabels, parentLabel, onlineShopping := [], None, false;
      webSiteURL, email := NullLink, "";
      currentRoster, pastRoster, releases, links := [], map[], map[], [];
      additionalNotes, logoUrl, logo := "", None, None;
    }

    // The setters the parser calls; each changes its own field and nothing else.

    method SetName(v: string)
      modifies this
      ensures Data() == old(Data()).(name := v)
    {
      name := v;
    }

    method SetAddress(v: string)
      modifies this
      ensures Data() == old(Data()).(address := v)
    {
      address := v;
    }

    method SetCountry(v: string)
      modifies this
      ensures Data() == old(Data()).(country := v)
    {
      country := v;
    }

    method SetPhoneNumber(v: string)
      modifies this
      ensures Data() == old(Data()).(phoneNumber := v)
    {
      phoneNumber := v;
    }

    method SetStatus(v: string)
      modifies this
      ensures Data() == old(Data()).(status := v)
    {
      status := v;
    }

    method SetSpecialisation(v: string)
      modifies this
      ensures Data() == old(Data()).(specialisation := v)
    {
      specialisation := v;
    }

    method SetFoundingDate(v: string)
      modifies this
      ensures Data() == old(Data()).(foundingDate := v)
    {
      foundingDate := v;
    }

    method SetSubLabels(v: seq<LabelRef>)
      modifies this
      ensures Data() == old(Data()).(subLabels := v)
    {
      subLabels := v;
    }

    method SetParentLabel(v: Option<LabelRef>)
      modifies this
      ensures Data() == old(Data()).(parentLabel := v)
    {
      parentLabel := v;
    }

    method SetOnlineShopping(v: bool)
      modifies this
      ensures Data() == old(Data()).(onlineShopping := v)
    {
      onlineShopping := v;
    }

    method SetWebSiteURL(v: Link)
      modifies this
      ensures Data() == old(Data()).(webSiteURL := v)
    {
      webSiteURL := v;
    }

    method SetEmail(v: string)
      modifies this
      ensures Data() == old(Data()).(email := v)
    {
      email := v;
    }

    method SetCurrentRoster(v: seq<Band>)
      modifies this
      ensures Data() == old(Data()).(currentRoster := v)
    {
      currentRoster := v;
    }

    method SetPastRoster(v: map<Band, int>)
      modifies this
      ensures Data() == old(Data()).(pastRoster := v)
    {
      pastRoster := v;
    }

    method SetReleases(v: map<Band, seq<Disc>>)
      modifies this
      ensures Data() == old(Data()).(releases := v)
    {
      releases := v;
    }

    method SetAdditionalNotes(v: string)
      modifies this
      ensures Data() == old(Data()).(additionalNotes := v)
    {
      additionalNotes := v;
    }

    method SetLogoUrl(v: Option<string>)
      modifies this
      ensures Data() == old(Data()).(logoUrl := v)
    {
      logoUrl := v;
    }

    method SetLogo(v: Option<Image>)
      modifies this
      ensures Data() == old(Data()).(logo := v)
    {
      logo := v;
    }

    /** addLink: appends to the links already held. */
    method AddLink(v: seq<Link>)
      modifies this
      ensures Data() == old(Data()).(links := old(links) + v)
    {
      links := links + v;
    }
  }

  /** A disc classification (album, EP, split, ...). */
  datatype DiscType = DiscType(name: string)

  /** A track as the search and the cache hold it; `discType` is null until known. */
  datatype Track = Track(id: int, name: string, lyrics: string, discType: Option<DiscType>)
}
