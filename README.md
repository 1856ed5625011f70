# Metal-archives label page parser and track search service, in Dafny

This project models two parts of the metal-archives client library.

The first is the label site parser. It takes the downloaded HTML of one label
page and fills a fresh `Label` through its setters. It works by plain
positional scanning with `indexOf`, `substring`, `split`, `contains` and
`trim`. The page is cut into regions:

- the upper left definition list gives the address, country and phone number;
- the upper right definition list gives the status, speciality, founding date,
  sub-labels, the parent label (only when region 3 announces one) and the
  online shopping flag;
- the contact block gives the website link and the email, which the page hides
  reversed with `@` written as `//` and `.` written as `/`.

The lower part of the page gives the additional notes and the logo URL. The
related collections (current roster, past roster, releases and links) follow
one policy:

- a collection the incoming entity already holds is reused;
- an empty one is loaded only when its option is on;
- a failed load gives the empty collection.

The logo is downloaded only when images are wanted and a URL was found.

The second part is the advanced track search service. It has a small
configuration: the lyrics flag, and the object count that enables the cache.
It hands the lyrics flag to its parser before every search. Its
`hasAllInformation` predicate decides whether a cached track is complete.

Modules:

- `Outcomes` (`outcomes.dfy`): `Option` for Java's nullable references. `Result`
  for the unchecked exceptions that escape the parser: `StringIndexOutOfBounds`,
  `ArrayIndexOutOfBounds` and `NumberFormat`. `AllOk`, which maps a fallible
  step over a list.
- `JavaStrings` (`java_strings.dfy`): the Java string operations the parser
  uses, on `seq<char>`:
  - `indexOf`/`lastIndexOf` give -1 on a miss;
  - `substring` throws on a bad range;
  - `split` with limit 0 drops trailing empty strings;
  - `trim` removes characters up to U+0020;
  - `equalsIgnoreCase`;
  - `Long.parseLong`, with the 64-bit range check.
- `Entities` (`entities.dfy`): bands, discs, links, label references, tracks,
  and the `Label` class with its fields, its setters and `addLink`.
- `LabelFields` (`label_fields.dfy`): the field extractors, one function per
  `parse…` method of the parser. It also holds the lemmas about them: the
  email round trip, the name, parent label and sub-label examples, and the
  sub-label list structure.
- `LabelSite` (`label_site_parser.dfy`):
  - `PARSE_STYLE`;
  - the reuse-or-load policy;
  - the page regions;
  - the whole parse as a function `ParseLabel`;
  - the `LabelSiteParser` class, whose methods fill a `Label` object step by
    step, as the Java methods do, each proved equal to its function;
  - lemmas about the parse.
- `TrackSearch` (`track_search_service.dfy`): `hasAllInformation` with its
  lemmas, and the service and parser classes.

Collaborators the model cannot see are parameters, collected in
`LabelSite.Services`:

- the HTML-to-text rendering (`Jsoup.parse(…).text()`);
- the line-separator rendering (`MetallumUtil.parseHtmlWithLineSeperators`);
- the roster, release and link sub-parsers;
- the image download.

A failure of a sub-parser or of the download that the parser catches is `None`. The page itself is a constructor
argument of the parser.

Three places where the source does more than its names suggest are kept as
written:

- the `+ k` added to an `indexOf` is never checked, so a missing opening marker
  does not by itself throw: the label name is read from offset 21 then;
- the `+ 5` after the first "</dl>" in `parseRightSide` is not checked either:
  without any "</dl>" the right regions are searched from offset 4;
- `parseLinks` returns the entity's own links, and `parse` appends them with
  `addLink` to the empty list of the fresh label.

## Model

| member | source | states |
|---|---|---|
| `LabelSite.ParseStyle.AsSearchNumber` | metalarchivesAPI/src/main/java/de/loki/metallum/core/parser/site/LabelSiteParser.java:37-64 | NONE is sent as -1, BAND as 0, GENRE as 1 and COUNTRY as 2. |
| `LabelSite.SearchNumbersDistinct` | metalarchivesAPI/src/main/java/de/loki/metallum/core/parser/site/LabelSiteParser.java:37-64 | Two styles have the same search number only when they are the same style. |
| `LabelSite.LabelSiteParser.constructor` | metalarchivesAPI/src/main/java/de/loki/metallum/core/parser/site/LabelSiteParser.java:94-99 | The parser keeps the entity, the page, the image and link flags and the three styles. |
| `LabelSite.LabelSiteParser.Parse` | metalarchivesAPI/src/main/java/de/loki/metallum/core/parser/site/LabelSiteParser.java:101-124 | The parse succeeds exactly when `ParseLabel` does. On success it returns a fresh label whose fields are `ParseLabel`'s value. |
| `LabelSite.ParseLabel` | metalarchivesAPI/src/main/java/de/loki/metallum/core/parser/site/LabelSiteParser.java:101-124 | The parsed label keeps the entity's id and has the page's name. Its address, country and phone number are the extractions from left regions 1-3. Its status, speciality, founding date, sub-labels and online shopping flag come from right regions 1-4 and the last region. It has a parent label exactly when right region 3 holds the parent marker, and then it is the one parsed from region 4. Its website and email are the ones extracted from the contact block. Its collections and links follow the reuse-or-load policy. Its notes, logo URL and logo are the extracted ones. |
| `LabelSite.ParseSucceeds` | metalarchivesAPI/src/main/java/de/loki/metallum/core/parser/site/LabelSiteParser.java:101-124 | The parse succeeds exactly when every extraction from the page succeeds: the name, left regions 1-3, right regions 1-4 (and the parent when region 3 announces it), the contact block with its website and email, the notes and the logo URL. |
| `LabelSite.UpperPart` | metalarchivesAPI/src/main/java/de/loki/metallum/core/parser/site/LabelSiteParser.java:103-111 | The name, left side, right side and contact block on `new Label(id)`. The id is kept and links are still empty. Every field of the three sides is its extractor's value on its region, and there is a parent exactly when region 3 announces one. |
| `LabelSite.UpperSucceeds` | metalarchivesAPI/src/main/java/de/loki/metallum/core/parser/site/LabelSiteParser.java:103-111 | The upper part succeeds exactly when the name, the left side, the right side and the contact block can all be extracted. |
| `LabelSite.LowerPart` | metalarchivesAPI/src/main/java/de/loki/metallum/core/parser/site/LabelSiteParser.java:113-122 | Fails exactly when the notes or the logo URL fail. It changes only the collections, links, notes, logo URL and logo, with the documented values (links appended). |
| `LabelSite.LabelSiteParser.ParseRightSide` | metalarchivesAPI/src/main/java/de/loki/metallum/core/parser/site/LabelSiteParser.java:127-139 | Sets the right-side fields of the label object through its setters. It succeeds exactly when `RightSide` does, and the label then holds `RightSide`'s value. |
| `LabelSite.RightSide` | metalarchivesAPI/src/main/java/de/loki/metallum/core/parser/site/LabelSiteParser.java:127-139 | Only status, speciality, founding date, sub-labels, parent and online shopping change. Each is its extractor's value on right regions 1-4 and the last region. With the parent marker in region 3 the parent is the one parsed from region 4; without it the parent keeps its old value. |
| `LabelSite.RightSucceeds` | metalarchivesAPI/src/main/java/de/loki/metallum/core/parser/site/LabelSiteParser.java:127-139 | The right side succeeds, whatever label it fills, exactly when right regions 1-4 exist, their extractions succeed, and the parent parses whenever region 3 announces it. |
| `LabelSite.RightSideOfRegions` | metalarchivesAPI/src/main/java/de/loki/metallum/core/parser/site/LabelSiteParser.java:128-137 | Once the regions are cut and every extraction succeeds, the right side is the record of the extracted fields. |
| `LabelSite.RightFields` | metalarchivesAPI/src/main/java/de/loki/metallum/core/parser/site/LabelSiteParser.java:130-137 | It succeeds exactly when regions 1-4 exist and every extractor succeeds. Online shopping comes from the last region. |
| `LabelSite.ParentOf` | metalarchivesAPI/src/main/java/de/loki/metallum/core/parser/site/LabelSiteParser.java:134-136 | Without the marker the old parent is kept. With it, the result succeeds exactly when `parseParentLabel` on region 4 does, and then holds that label. |
| `LabelSite.LabelSiteParser.ParseLeftSide` | metalarchivesAPI/src/main/java/de/loki/metallum/core/parser/site/LabelSiteParser.java:141-147 | Sets address, country and phone number through the setters. It succeeds exactly when `LeftSide` does, and the label then holds `LeftSide`'s value. |
| `LabelSite.LeftSide` | metalarchivesAPI/src/main/java/de/loki/metallum/core/parser/site/LabelSiteParser.java:141-147 | Only the address, country and phone number change. They are the address, country and phone extractions from left regions 1, 2 and 3. |
| `LabelSite.LeftSucceeds` | metalarchivesAPI/src/main/java/de/loki/metallum/core/parser/site/LabelSiteParser.java:141-147 | The left side succeeds, whatever label it fills, exactly when left regions 1-3 exist and their address, country and phone extractions succeed. |
| `LabelSite.LeftSideOfRegions` | metalarchivesAPI/src/main/java/de/loki/metallum/core/parser/site/LabelSiteParser.java:142-145 | Once the regions are cut and the three extractions succeed, the left side is the old record with exactly those three values. |
| `LabelSite.LeftRegions` | metalarchivesAPI/src/main/java/de/loki/metallum/core/parser/site/LabelSiteParser.java:142 | The left regions exist exactly when the page has a "</dl>". They are the page up to its first "</dl>", split at "<dd". |
| `LabelSite.RightRegions` | metalarchivesAPI/src/main/java/de/loki/metallum/core/parser/site/LabelSiteParser.java:128 | The right regions exist exactly when a "</dl>" follows the offset 5 past the first "</dl>" (offset 4 when there is none). They are the text from that offset up to that "</dl>", split at "<dd>". |
| `LabelSite.LeftFields` | metalarchivesAPI/src/main/java/de/loki/metallum/core/parser/site/LabelSiteParser.java:143-145 | It succeeds exactly when regions 1-3 exist and their extractors succeed. The value is the old record with the three fields replaced. |
| `LabelFields.Between` | metalarchivesAPI/src/main/java/de/loki/metallum/core/parser/site/LabelSiteParser.java:174 | The slice between the first `open` and the first `close` holds no `close`, and `close` follows it. No `close` in the fragment means a failure. |
| `LabelFields.BetweenAt` | metalarchivesAPI/src/main/java/de/loki/metallum/core/parser/site/LabelSiteParser.java:174-190 | When no first character of `open` precedes it and no first character of `close` precedes the end of `mid`, the slice of `…open mid close…` is exactly `mid`. |
| `LabelFields.LabelName` | metalarchivesAPI/src/main/java/de/loki/metallum/core/parser/site/LabelSiteParser.java:149-153 | With the text from offset 22 past the first name marker (offset 21 without one) available, the name is exactly the text between its first '>' and its first "</h1>", failing as that slice does; past the end of the page it fails with a string index error. The name holds no "</h1>". |
| `LabelFields.LabelNameOf` | metalarchivesAPI/src/main/java/de/loki/metallum/core/parser/site/LabelSiteParser.java:149-153 | Behind the first name marker, a heading's text without markup is exactly the name, whatever precedes or follows it. |
| `LabelFields.LabelNameFirst` | metalarchivesAPI/src/main/java/de/loki/metallum/core/parser/site/LabelSiteParser.java:149-153 | A page that starts with the heading yields the heading's text. |
| `LabelFields.LabelNameExample` | metalarchivesAPI/src/main/java/de/loki/metallum/core/parser/site/LabelSiteParser.java:149-153 | The Metal Blade Records heading yields `Metal Blade Records`. |
| `LabelSite.ReuseOrLoad` | metalarchivesAPI/src/main/java/de/loki/metallum/core/parser/site/LabelSiteParser.java:247-260 | A non-empty existing collection is returned as it is. When it is empty: disabled gives empty, and enabled gives the loaded one, or empty when the load fails. |
| `LabelSite.CurrentRoster` | metalarchivesAPI/src/main/java/de/loki/metallum/core/parser/site/LabelSiteParser.java:247-260 | The entity's non-empty current roster is returned as it is. An empty one stays empty under NONE; under any other style it is the roster loaded for the label id with page size 127 and the flag set, or empty when that load fails. |
| `LabelSite.PastRoster` | metalarchivesAPI/src/main/java/de/loki/metallum/core/parser/site/LabelSiteParser.java:274-287 | The same three cases for the past roster: the entity's own, empty under NONE, or the loaded one (empty on failure). |
| `LabelSite.Releases` | metalarchivesAPI/src/main/java/de/loki/metallum/core/parser/site/LabelSiteParser.java:301-313 | The same three cases for the releases per band. |
| `LabelSite.Links` | metalarchivesAPI/src/main/java/de/loki/metallum/core/parser/site/LabelSiteParser.java:155-171 | The entity's non-empty links are returned as they are. Empty links stay empty when link loading is off; otherwise they are the links loaded for the label id, or empty when that load fails. |
| `LabelSite.ReuseIgnoresLoader` | metalarchivesAPI/src/main/java/de/loki/metallum/core/parser/site/LabelSiteParser.java:247-260 | When the collection is reused or loading is off, the sub-parser has no influence on the result. |
| `LabelSite.ReuseOrLoadIdempotent` | metalarchivesAPI/src/main/java/de/loki/metallum/core/parser/site/LabelSiteParser.java:274-287 | Parsing again with the collection already obtained gives the same collection. |
| `LabelSite.ExistingCollectionsReused` | metalarchivesAPI/src/main/java/de/loki/metallum/core/parser/site/LabelSiteParser.java:155-313 | The entity's non-empty current roster, past roster, releases and links come back unchanged. |
| `LabelSite.DisabledCollectionsEmpty` | metalarchivesAPI/src/main/java/de/loki/metallum/core/parser/site/LabelSiteParser.java:155-313 | An empty collection whose style is NONE is empty in the result, and so are links when `loadLinks` is false. |
| `LabelSite.FailedLoadsEmpty` | metalarchivesAPI/src/main/java/de/loki/metallum/core/parser/site/LabelSiteParser.java:155-313 | An empty collection whose sub-parser fails is empty in the result. |
| `LabelFields.Address` | metalarchivesAPI/src/main/java/de/loki/metallum/core/parser/site/LabelSiteParser.java:173-177 | The address is the line-separated rendering of the text between "> " and "</dd>", and it fails exactly when that slice does. |
| `LabelFields.CountryName` | metalarchivesAPI/src/main/java/de/loki/metallum/core/parser/site/LabelSiteParser.java:179-182 | It succeeds exactly when the first "</dd>" lies at or after the end of the first ">". The value is exactly the text between them, and it holds no "</dd>". |
| `LabelFields.CountryNameOf` | metalarchivesAPI/src/main/java/de/loki/metallum/core/parser/site/LabelSiteParser.java:179-182 | An entry `…>name</dd>…` with no '>' before it and no '<' before its end yields exactly `name`. |
| `LabelFields.PhoneNumber` | metalarchivesAPI/src/main/java/de/loki/metallum/core/parser/site/LabelSiteParser.java:184-187 | It succeeds exactly when the slice between "> " and "</dd>" does. The number is that slice trimmed, so it has no leading or trailing white space. |
| `LabelFields.PhoneNumberOf` | metalarchivesAPI/src/main/java/de/loki/metallum/core/parser/site/LabelSiteParser.java:184-187 | An entry `…> number</dd>…` with no '>' before it and no '<' before its end yields the trimmed number. |
| `LabelFields.StatusName` | metalarchivesAPI/src/main/java/de/loki/metallum/core/parser/site/LabelSiteParser.java:189-192 | It succeeds exactly when the first "</sp" lies at or after the end of the first `">`. The value is exactly the text between them, and it holds no "</sp". |
| `LabelFields.StatusNameOf` | metalarchivesAPI/src/main/java/de/loki/metallum/core/parser/site/LabelSiteParser.java:189-192 | An entry `…">status</span>…` with no '"' before it and no '<' before its end yields exactly `status`. |
| `LabelFields.SpecialisedIn` | metalarchivesAPI/src/main/java/de/loki/metallum/core/parser/site/LabelSiteParser.java:194-197 | It succeeds exactly when " </dd>" first occurs at index 1 or later. The value is the text from index 1 up to that first occurrence, and it holds no " </dd>". |
| `LabelFields.FoundingDate` | metalarchivesAPI/src/main/java/de/loki/metallum/core/parser/site/LabelSiteParser.java:199-202 | The same slice as the speciality: it succeeds exactly when " </dd>" first occurs at index 1 or later, and the value is the text from index 1 up to it. |
| `LabelFields.SpecialisedInOf` | metalarchivesAPI/src/main/java/de/loki/metallum/core/parser/site/LabelSiteParser.java:194-202 | An entry of one skipped character, a value without '<' and " </dd>" yields exactly the value, both as speciality and as founding date. |
| `LabelFields.ParentLabel` | metalarchivesAPI/src/main/java/de/loki/metallum/core/parser/site/LabelSiteParser.java:204-209 | The parent's name holds no "</a></dd>", and its id is a Java long. |
| `LabelFields.IdText` | metalarchivesAPI/src/main/java/de/loki/metallum/core/parser/site/LabelSiteParser.java:207 | The id text is the suffix after the last '/'. It holds no '/', and a '/' precedes it. |
| `LabelFields.ParentLabelOf` | metalarchivesAPI/src/main/java/de/loki/metallum/core/parser/site/LabelSiteParser.java:204-209 | A fragment `<a href="host/n">name</a></dd>…` yields the parent label with id n and that name. |
| `LabelFields.SubLabelGuard` | metalarchivesAPI/src/main/java/de/loki/metallum/core/parser/site/LabelSiteParser.java:213-216 | The fragment passes exactly when it has at least ten characters, its first line runs at least to the last character, and that last character is one of '<', '/', 'd', '>'. |
| `LabelFields.CutClosingDd` | metalarchivesAPI/src/main/java/de/loki/metallum/core/parser/site/LabelSiteParser.java:220 | Cutting never lengthens the text, and a text that does not start with '<' keeps its first character. |
| `LabelFields.CutWithoutTags` | metalarchivesAPI/src/main/java/de/loki/metallum/core/parser/site/LabelSiteParser.java:220 | A text without '<' is left unchanged by the cut. |
| `LabelFields.SubLabel` | metalarchivesAPI/src/main/java/de/loki/metallum/core/parser/site/LabelSiteParser.java:219-226 | A piece's label is named by the text of the cleaned piece, and its id is a Java long. |
| `LabelFields.LinkEntry` | metalarchivesAPI/src/main/java/de/loki/metallum/core/parser/site/LabelSiteParser.java:224-226 | The entry carries the given name and an id in the long range. |
| `LabelFields.SubLabelList` | metalarchivesAPI/src/main/java/de/loki/metallum/core/parser/site/LabelSiteParser.java:217-227 | It succeeds exactly when every piece does. It then has one label per piece, in order, each the piece's own label. |
| `LabelFields.SubLabels` | metalarchivesAPI/src/main/java/de/loki/metallum/core/parser/site/LabelSiteParser.java:211-229 | A trimmed fragment that fails the guard gives no sub-labels. Otherwise the result is the list of its comma-separated pieces. |
| `LabelSite.LabelSiteParser.ParseSubLabels` | metalarchivesAPI/src/main/java/de/loki/metallum/core/parser/site/LabelSiteParser.java:211-229 | The loop that appends one label per piece computes exactly `SubLabels`, including the failure of the first bad piece. |
| `LabelFields.SubLabelsOfPieces` | metalarchivesAPI/src/main/java/de/loki/metallum/core/parser/site/LabelSiteParser.java:217-227 | Past the guard, pieces that each parse give the list of their labels, in order. |
| `LabelFields.SubLabelsOfFailure` | metalarchivesAPI/src/main/java/de/loki/metallum/core/parser/site/LabelSiteParser.java:217-227 | The first piece that fails decides the exception of the whole list. |
| `LabelFields.SubLabelOfLink` | metalarchivesAPI/src/main/java/de/loki/metallum/core/parser/site/LabelSiteParser.java:219-226 | A piece that cleans up to `<a href="host/n">name</a>`, rendered as `name`, yields the label (n, name). |
| `LabelFields.TwoSubLabels` | metalarchivesAPI/src/main/java/de/loki/metallum/core/parser/site/LabelSiteParser.java:211-229 | Two comma-separated links closed by "</dd>" yield their two labels, in order. |
| `LabelFields.SubLabelsExample` | metalarchivesAPI/src/main/java/de/loki/metallum/core/parser/site/LabelSiteParser.java:211-229 | The links to Foo (7) and Bar (9) yield [(7, Foo), (9, Bar)]. |
| `LabelFields.HasOnlineShopping` | metalarchivesAPI/src/main/java/de/loki/metallum/core/parser/site/LabelSiteParser.java:231-237 | True exactly when the text of the fragment is "yes" in any mix of upper and lower case. |
| `LabelFields.WebsitePart` | metalarchivesAPI/src/main/java/de/loki/metallum/core/parser/site/LabelSiteParser.java:335-338 | Without the email marker the website part is the whole contact block. With it, the part is the prefix that ends exactly at the first email marker. Either way it holds no email marker. |
| `LabelFields.WebsiteLink` | metalarchivesAPI/src/main/java/de/loki/metallum/core/parser/site/LabelSiteParser.java:334-350 | Blank text gives the empty link. Otherwise it succeeds exactly when a '"' follows the offset 9 past the first `<a href="`. The link is then named by the trimmed text, and its URL is exactly the text from that offset up to the next '"'. |
| `LabelFields.WebsiteLinkOf` | metalarchivesAPI/src/main/java/de/loki/metallum/core/parser/site/LabelSiteParser.java:334-350 | A website part that opens with `<a href="url"` and has text yields the link with that text as name and exactly `url` as URL. |
| `LabelFields.LabelEmail` | metalarchivesAPI/src/main/java/de/loki/metallum/core/parser/site/LabelSiteParser.java:358-372 | Without the email marker the email is "". With it, the email fails exactly when the hidden text cannot be cut out, and otherwise it is the decoding of the hidden text. No decoded email holds a '/'. |
| `LabelFields.HiddenEmail` | metalarchivesAPI/src/main/java/de/loki/metallum/core/parser/site/LabelSiteParser.java:360-363 | The hidden text, cut from the first email marker to the first "</a>" after it and behind the last `">` before that, holds no "</a>". |
| `LabelFields.LabelEmailOf` | metalarchivesAPI/src/main/java/de/loki/metallum/core/parser/site/LabelSiteParser.java:358-372 | An email link `title="Email">hidden</a>` behind the first email marker, with no '"' or '<' in `hidden`, yields exactly the decoding of `hidden`. |
| `LabelFields.LabelEmailExample` | metalarchivesAPI/src/main/java/de/loki/metallum/core/parser/site/LabelSiteParser.java:358-372 | The link hiding `moc/elgoog//lieg` yields `geil@google.com`. |
| `LabelFields.DecodeEmail` | metalarchivesAPI/src/main/java/de/loki/metallum/core/parser/site/LabelSiteParser.java:366-368 | Reversing, then `//`→`@`, then `/`→`.` leaves no '/'. |
| `LabelFields.DecodeEncode` | metalarchivesAPI/src/main/java/de/loki/metallum/core/parser/site/LabelSiteParser.java:364-368 | Decoding inverts the page's encoding for every address with no '/', no ".." and no ".@". |
| `LabelFields.DoubleDotNotRecovered` | metalarchivesAPI/src/main/java/de/loki/metallum/core/parser/site/LabelSiteParser.java:364-368 | "a..b" and "a@b" are hidden alike, so "a..b" does not come back. |
| `LabelFields.EncodeShape` | metalarchivesAPI/src/main/java/de/loki/metallum/core/parser/site/LabelSiteParser.java:364-365 | An address user@host.tld is hidden as `dlt/tsoh//resu`. |
| `LabelFields.EmailExample` | metalarchivesAPI/src/main/java/de/loki/metallum/core/parser/site/LabelSiteParser.java:364-368 | `moc/elgoog//lieg` decodes to `geil@google.com`. |
| `LabelSite.ContactRegion` | metalarchivesAPI/src/main/java/de/loki/metallum/core/parser/site/LabelSiteParser.java:326-327 | The contact block is exactly the text from offset 22 past the first contact marker up to the next "</p>", so it holds no "</p>". |
| `LabelSite.ContactRegionOf` | metalarchivesAPI/src/main/java/de/loki/metallum/core/parser/site/LabelSiteParser.java:326-327 | A block behind the first contact marker, closed by the first "</p>" after it, is found whole, whatever precedes or follows it. |
| `LabelSite.ContactFields` | metalarchivesAPI/src/main/java/de/loki/metallum/core/parser/site/LabelSiteParser.java:329-330 | It succeeds exactly when the website link and the email do. It sets those two fields. |
| `LabelSite.ContactData` | metalarchivesAPI/src/main/java/de/loki/metallum/core/parser/site/LabelSiteParser.java:325-332 | It succeeds exactly when the contact block and both of its extractions do. Only the website and the email change, and they are the ones extracted from the contact block. |
| `LabelSite.ContactSucceeds` | metalarchivesAPI/src/main/java/de/loki/metallum/core/parser/site/LabelSiteParser.java:325-332 | The contact data succeed, whatever label they fill, exactly when the contact block, its website link and its email can be extracted. |
| `LabelSite.LabelSiteParser.ParseContactData` | metalarchivesAPI/src/main/java/de/loki/metallum/core/parser/site/LabelSiteParser.java:325-332 | Sets website and email through the setters. It succeeds exactly when `ContactData` does, and the label then holds its value. |
| `LabelFields.ParagraphsToBreaks` | metalarchivesAPI/src/main/java/de/loki/metallum/core/parser/site/LabelSiteParser.java:319 | Text without '<' is unchanged. |
| `LabelFields.ParagraphTagsToBreaks` | metalarchivesAPI/src/main/java/de/loki/metallum/core/parser/site/LabelSiteParser.java:319 | Plain text before a `<p>` or a `</p>` is kept, and the tag becomes `<br><br>`. |
| `LabelFields.ParagraphOf` | metalarchivesAPI/src/main/java/de/loki/metallum/core/parser/site/LabelSiteParser.java:319 | A paragraph `<p>t</p>` of plain text becomes `<br><br>t<br><br>`. |
| `LabelFields.AdditionalNotes` | metalarchivesAPI/src/main/java/de/loki/metallum/core/parser/site/LabelSiteParser.java:315-323 | Without the notes marker the notes are "". With it, the slice fails exactly when the audit trail comes before the notes or is missing. Otherwise the notes are the line-separated rendering of the slice from the notes marker to the audit-trail marker, with paragraph tags turned into breaks. |
| `LabelFields.AdditionalNotesOf` | metalarchivesAPI/src/main/java/de/loki/metallum/core/parser/site/LabelSiteParser.java:315-323 | A notes block opening at the first notes marker and closed by the first audit-trail marker is rendered whole, marker included. |
| `LabelSite.NoNotesWithoutMarker` | metalarchivesAPI/src/main/java/de/loki/metallum/core/parser/site/LabelSiteParser.java:315-323 | A parsed page without the notes block has empty notes. |
| `LabelFields.LogoUrl` | metalarchivesAPI/src/main/java/de/loki/metallum/core/parser/site/LabelSiteParser.java:374-382 | Without the logo marker the URL is null. With it, the URL is found exactly when a '"' follows the first `src="` after offset 16 past the marker. The URL is then exactly the text from that `src="` up to the next '"', so it holds no '"'. |
| `LabelFields.LogoUrlOf` | metalarchivesAPI/src/main/java/de/loki/metallum/core/parser/site/LabelSiteParser.java:374-382 | A logo behind the first logo marker yields exactly the value of the first `src` attribute after it. |
| `LabelSite.LabelLogo` | metalarchivesAPI/src/main/java/de/loki/metallum/core/parser/site/LabelSiteParser.java:389-398 | No logo when images are off or the URL is null. Otherwise the logo is the download's outcome: null when the download fails. |
| `LabelSite.NoLogoUnlessWanted` | metalarchivesAPI/src/main/java/de/loki/metallum/core/parser/site/LabelSiteParser.java:374-398 | A parsed label has no logo with images off. It has neither URL nor logo without the logo marker. Otherwise its logo is the download of its URL. |
| `Entities.Label.constructor` | metalarchivesAPI/src/main/java/de/loki/metallum/core/parser/site/LabelSiteParser.java:103 | `new Label(id)` holds the id, no parent, and empty collections and links. |
| `TrackSearch.HasAllInformation` | metalarchivesAPI/src/main/java/de/loki/metallum/search/service/advanced/TrackSearchService.java:71-80 | A cached track is incomplete exactly when its lyrics are empty and its disc type is null. |
| `TrackSearch.CompleteWithLyrics` | metalarchivesAPI/src/main/java/de/loki/metallum/search/service/advanced/TrackSearchService.java:72-74 | A track with non-empty lyrics is complete. |
| `TrackSearch.CompleteWithDiscType` | metalarchivesAPI/src/main/java/de/loki/metallum/search/service/advanced/TrackSearchService.java:75-78 | A track with a disc type is complete, even without lyrics. |
| `TrackSearch.LyricsMonotone` | metalarchivesAPI/src/main/java/de/loki/metallum/search/service/advanced/TrackSearchService.java:71-80 | Setting non-empty lyrics makes a track complete and never makes a complete one incomplete. |
| `TrackSearch.DiscTypeMonotone` | metalarchivesAPI/src/main/java/de/loki/metallum/search/service/advanced/TrackSearchService.java:71-80 | Setting a disc type makes a track complete and never makes a complete one incomplete. |
| `TrackSearch.CompletenessIgnoresIdentity` | metalarchivesAPI/src/main/java/de/loki/metallum/search/service/advanced/TrackSearchService.java:71-80 | Completeness does not depend on the track's id or name. |
| `TrackSearch.TrackSearchService.constructor` | metalarchivesAPI/src/main/java/de/loki/metallum/search/service/advanced/TrackSearchService.java:40-42 | The default service does not load lyrics, and its object count is Integer.MAX_VALUE. |
| `TrackSearch.TrackSearchService.WithLoadLyrics` | metalarchivesAPI/src/main/java/de/loki/metallum/search/service/advanced/TrackSearchService.java:49-53 | The service has the given lyrics flag, and its object count is Integer.MAX_VALUE. |
| `TrackSearch.TrackSearchService.SetLoadLyrics` | metalarchivesAPI/src/main/java/de/loki/metallum/search/service/advanced/TrackSearchService.java:66-68 | Only the lyrics flag changes; the object count does not. |
| `TrackSearch.TrackSearchService.PerformSearch` | metalarchivesAPI/src/main/java/de/loki/metallum/search/service/advanced/TrackSearchService.java:61-64 | The parser's lyrics flag is the service's flag, and the search runs with it. |

## Left out

- Downloading the page and the logo, and `getSiteURL`: the page is a
  constructor argument, and the download is a function in `Services` whose
  failure is `None`.
- `Jsoup.parse(…).text()` and `MetallumUtil.parseHtmlWithLineSeperators`: both
  are uninterpreted functions in `Services` (`text`, `lineSeparated`).
- `CurrentRosterParser`, `PastRosterParser`, `ReleaseParser` and `LinkParser`:
  they are functions in `Services` that take the same arguments as the Java
  constructors. For the two rosters and the releases, `None` stands for any
  exception, since those three parse methods catch `Exception` (lines 255, 282 and 308).
  For the links and the logo download, `None` stands for an
  `ExecutionException` only (lines 165 and 393). An unchecked exception from
  `LinkParser` or `Downloader.getImage` would escape `parse`, and that path is
  not modelled. The current roster's
  `values()` of a map is given directly as a sequence, so the order of that map
  is not modelled.
- `Country.getRightCountryForString` and `LabelStatus.getLabelStatusForString`:
  these lookups are not part of this model. The label stores the text handed
  to them.
- `parseModfications` (line 123) lives in the abstract site parser, which is not
  part of this model. `Parse` returns the label as it stands before that step.
- General regular expressions: only the three fixed patterns of the parser are
  modelled, each as a scanner. The sub-label guard `.{9,}?[</dd>]$` is
  modelled exactly, including `.` not matching line terminators. The other two
  are `(?imx)</dd>.*` and `<.?p>`.
- `Label` setters and `addLink` are not part of this model. They are taken to be
  plain field assignments, and an append for `addLink`. Sub-labels and the
  parent label are `LabelRef(id, name)` values, not `Label` objects.
- The incoming entity is a `LabelData` value, read only.
- Logging, `BufferedImage` and stack traces, which change no result.
- Exceptions other than the three the parser itself can raise. A
  null dereference from a null collection of the entity or a null
  collaborator result cannot arise in the model, because those values are
  never null.
- Strings are sequences of `char`. Java's UTF-16 surrogate pairs and non-ASCII
  case folding in `equalsIgnoreCase` are not modelled; only ASCII letters are
  folded.
- Ids are `int`, and `Long.parseLong`'s range check is modelled. A malformed id
  is a `NumberFormat` failure rather than a precondition.
- `ParseLong` accepts ASCII digits only. `Long.parseLong` also accepts every
  other Unicode decimal digit (for example Arabic-Indic digits), so an id
  written in such digits fails in the model but parses in Java.
- The cache, the generic search and the track result parsing live in
  `AbstractSearchService` and `TrackSearchParser`, which are not part of this
  model. `PerformSearch` takes the search as a function of the parser's lyrics
  flag, and the `query` argument is folded into that function.
- `getSearchParser` is the `new TrackSearchParser()` in the service
  constructors. The parser's own initial flag is left unspecified.
- A track's lyrics are never null in the model.
- `ParagraphsToBreaks`: its own contract states only that text without '<' is
  unchanged. What it does to paragraph tags is stated by the lemmas
  `ParagraphTagsToBreaks` and `ParagraphOf`, not for every input.
