/**
 * The field extractors of the label page parser: each takes one fragment of the
 * page and slices a field out of it by marker search, exactly as the Java code
 * does with indexOf and substring. A slice the Java code would take out of range
 * is an Err; the offsets added to a failed search (-1) are kept, so a missing
 * opening marker does not by itself make an extractor fail.
 */
module LabelFields {
  import opened Outcomes
  import opened JavaStrings
  import opened Entities

  const NameMarker := "<h1 class=\"label_name\">"
  const ParentMarker := "<dt>Parent label:</dt>"
  const ContactMarker := "<p id=\"label_contact\">"
  const EmailMarker := "title=\"Email\""
  const HrefMarker := "<a href=\""
  const NotesMarker := "<div id=\"label_notes"
  const AuditMarker := "<div id=\"auditTrail"
  const ImageMarker := "class=\"label_img\""

  // ---------------------------------------------------------------------------
  // Plain slices

  /**
   * `v` is the text of `s` that starts right after the first `open` and ends where
   * the first `close` starts. When `open` is missing the start is |open| - 1, the
   * offset the Java code adds to the -1 of a failed search.
   */
  predicate SlicedBetween(s: string, open: string, close: string, v: string) {
    var b := IndexOf(s, open) + |open|;
    0 <= b && b + |v| <= |s| && s[b..b + |v|] == v && IndexOf(s, close) == b + |v|
  }

  /** `v` is what `s` holds from index `b` up to the first `close` from there on. */
  predicate UpTo(s: string, b: int, close: string, v: string) {
    0 <= b <= |s| && IndexOf(s[b..], close) == |v| && s[b..][..|v|] == v
  }

  /** s.substring(b) cut before its first `close`: the text from `b` up to the next `close`. */
  function UpToFirst(s: string, b: int, close: string): (r: Result<string>)
    requires |close| > 0
    ensures r.Ok? <==> 0 <= b <= |s| && Contains(s[b..], close)
    ensures r.Ok? ==> UpTo(s, b, close, r.value) && !Contains(r.value, close)
  {
    var rest :- Substring(s, b, |s|);
    assert rest == s[b..];
    var e := IndexOf(rest, close);
    if 0 <= e then SliceBeforeFirst(rest, close, 0, e); Substring(rest, 0, e)
    else Substring(rest, 0, e)
  }

  /** The text between index |a| and a `close` that first occurs right after it is found whole. */
  lemma UpToFirstOf(a: string, v: string, close: string, post: string)
    requires |close| > 0 && IndexOf(v + close, close) == |v|
    ensures UpToFirst(a + v + close + post, |a|, close) == Ok(v)
  {
    var s := a + v + close + post;
    assert s[|a|..] == v + close + post;
    FirstMarker(v, close, post);
    assert (v + close + post)[..|v|] == v;
  }

  /** A quoted value: the first '"' after a text without '"' closes it. */
  lemma QuoteCloses(v: string)
    requires '"' !in v
    ensures IndexOf(v + "\"", "\"") == |v|
  {
    IndexOfStart("\"", []);
    IndexOfSkip(v, "\"", "\"");
  }

  /**
   * s.substring(s.indexOf(open) + |open|, s.indexOf(close)): the text after the
   * first `open` up to the first `close`.
   */
  function Between(s: string, open: string, close: string): (r: Result<string>)
    requires |open| > 0 && |close| > 0
    ensures r.Ok? <==> 0 <= IndexOf(s, open) + |open| <= IndexOf(s, close)
    ensures r.Ok? ==> SlicedBetween(s, open, close, r.value)
    ensures r.Ok? ==> !Contains(r.value, close)
    ensures !Contains(s, close) ==> r.Err?
  {
    var b, e := IndexOf(s, open) + |open|, IndexOf(s, close);
    if 0 <= b <= e <= |s| then SliceBeforeFirst(s, close, b, e); Substring(s, b, e)
    else Substring(s, b, e)
  }

  /** parseLabelName: the text between the heading's closing '>' and the first "</h1>" after it. */
  function LabelName(html: string): (r: Result<string>)
    ensures var b := IndexOf(html, NameMarker) + 22;
      b <= |html| ==> r == Between(html[b..], ">", "</h1>")
    ensures IndexOf(html, NameMarker) + 22 > |html| ==> r == Err(StringIndexOutOfBounds)
    ensures r.Ok? ==> !Contains(r.value, "</h1>")
  {
    var b := IndexOf(html, NameMarker) + 22;
    var rest :- Substring(html, b, |html|);
    assert rest == html[b..];
    Between(rest, ">", "</h1>")
  }

  /** parseAddress: the text after "> " up to "</dd>", rendered by the line-separator helper. */
  function Address(part: string, lineSeparated: string -> string): (r: Result<string>)
    ensures r.Ok? <==> Between(part, "> ", "</dd>").Ok?
    ensures r.Ok? ==> r.value == lineSeparated(Between(part, "> ", "</dd>").value)
  {
    var address :- Between(part, "> ", "</dd>");
    Ok(lineSeparated(address))
  }

  /** parseCountry before the lookup: the text after ">" up to "</dd>". */
  function CountryName(part: string): (r: Result<string>)
    ensures r.Ok? <==> IndexOf(part, ">") + 1 <= IndexOf(part, "</dd>")
    ensures r.Ok? ==> SlicedBetween(part, ">", "</dd>", r.value) && !Contains(r.value, "</dd>")
  {
    Between(part, ">", "</dd>")
  }

  /** parsePhoneNumber: the text after "> " up to "</dd>", trimmed. */
  function PhoneNumber(part: string): (r: Result<string>)
    ensures r.Ok? <==> Between(part, "> ", "</dd>").Ok?
    ensures r.Ok? ==> r.value == Trim(Between(part, "> ", "</dd>").value)
    ensures r.Ok? ==> r.value == [] || (!IsJavaSpace(r.value[0]) && !IsJavaSpace(r.value[|r.value| - 1]))
  {
    var slice := Between(part, "> ", "</dd>");
    if slice.Err? then Err(slice.failure) else Ok(Trim(slice.value))
  }

  /** parseLabelStatus before the lookup: the text after "\">" up to "</sp". */
  function StatusName(part: string): (r: Result<string>)
    ensures r.Ok? <==> IndexOf(part, "\">") + 2 <= IndexOf(part, "</sp")
    ensures r.Ok? ==> SlicedBetween(part, "\">", "</sp", r.value) && !Contains(r.value, "</sp")
  {
    Between(part, "\">", "</sp")
  }

  /** parseSpecialisedIn: from index 1 up to the first " </dd>". */
  function SpecialisedIn(part: string): (r: Result<string>)
    ensures r.Ok? <==> IndexOf(part, " </dd>") >= 1
    ensures r.Ok? ==> IndexOf(part, " </dd>") == 1 + |r.value| && r.value == part[1..1 + |r.value|]
    ensures r.Ok? ==> !Contains(r.value, " </dd>")
  {
    var e := IndexOf(part, " </dd>");
    if 1 <= e then SliceBeforeFirst(part, " </dd>", 1, e); Substring(part, 1, e)
    else Substring(part, 1, e)
  }

  /** parseFoundingDate: from index 1 up to the first " </dd>", as parseSpecialisedIn. */
  function FoundingDate(part: string): (r: Result<string>)
    ensures r.Ok? <==> IndexOf(part, " </dd>") >= 1
    ensures r.Ok? ==> IndexOf(part, " </dd>") == 1 + |r.value| && r.value == part[1..1 + |r.value|]
    ensures r.Ok? ==> !Contains(r.value, " </dd>")
  {
    var e := IndexOf(part, " </dd>");
    if 1 <= e then SliceBeforeFirst(part, " </dd>", 1, e); Substring(part, 1, e)
    else Substring(part, 1, e)
  }

  /** s.substring(s.lastIndexOf("/") + 1): what follows the last '/' of a link target. */
  function IdText(s: string): (r: string)
    ensures '/' !in r
    ensures |r| <= |s| && r == s[|s| - |r|..]
    ensures |r| < |s| ==> s[|s| - |r| - 1] == '/'
  {
    var i := LastIndexOf(s, "/");
    CharAfterLast(s, '/', i);
    assert i >= 0 ==> s[i..i + 1] == [s[i]];
    s[i + 1..]
  }

  // ---------------------------------------------------------------------------
  // Parent label and sub-labels

  /** parseParentLabel: the link text before "</a></dd>" and the id at the end of its target. */
  function ParentLabel(part: string): (r: Result<LabelRef>)
    ensures r.Ok? ==> !Contains(r.value.name, "</a></dd>")
    ensures r.Ok? ==> LongMinValue <= r.value.id <= LongMaxValue
  {
    var name :- Between(part, "\">", "</a></dd>");
    var target :- Substring(part, 0, IndexOf(part, "\">" + name));
    var id :- ParseLong(IdText(target));
    Ok(LabelRef(id, name))
  }

  /** The characters that end a line for Java's regular expressions (no '.' matches them). */
  predicate IsLineTerminator(c: char) {
    c == '\n' || c == '\r' || c == '\U{0085}' || c == '\U{2028}' || c == '\U{2029}'
  }

  predicate NoLineTerminator(s: string) {
    forall c | c in s :: !IsLineTerminator(c)
  }

  /**
   * The guard `t.matches(".{9,}?[</dd>]$")`: at least nine characters other than
   * line terminators followed by one final character out of '<', '/', 'd', '>'.
   */
  predicate SubLabelGuard(t: string): (ok: bool)
    ensures ok <==> |t| >= 10 && LineLength(t) >= |t| - 1 && t[|t| - 1] in "</d>"
  {
    var ok := |t| >= 10 && NoLineTerminator(t[..|t| - 1]) && t[|t| - 1] in {'<', '/', 'd', '>'};
    if |t| >= 10 then
      assert t[..LineLength(t)] <= t[..|t| - 1] || t[..|t| - 1] <= t[..LineLength(t)];
      assert LineLength(t) < |t| - 1 ==> t[LineLength(t)] in t[..|t| - 1];
      ok
    else ok
  }

  /** The number of characters before the first line terminator. */
  function LineLength(s: string): (n: nat)
    ensures n <= |s| && NoLineTerminator(s[..n])
    ensures n < |s| ==> IsLineTerminator(s[n])
  {
    if |s| == 0 || IsLineTerminator(s[0]) then 0
    else
      var n := 1 + LineLength(s[1..]);
      assert s[..n] == [s[0]] + s[1..][..n - 1];
      n
  }

  /** `s` starts with "</dd>", the letters compared without case. */
  predicate StartsWithClosingDd(s: string) {
    |s| >= 5 && s[0] == '<' && s[1] == '/' && ToLowerAscii(s[2]) == 'd'
    && ToLowerAscii(s[3]) == 'd' && s[4] == '>'
  }

  /** replaceAll("(?imx)</dd>.*", ""): each "</dd>" is cut together with the rest of its line. */
  function CutClosingDd(s: string): (r: string)
    ensures |r| <= |s|
    ensures |s| > 0 && s[0] != '<' ==> |r| > 0 && r[0] == s[0]
    decreases |s|
  {
    if |s| == 0 then s
    else if StartsWithClosingDd(s) then CutClosingDd(s[5 + LineLength(s[5..])..])
    else [s[0]] + CutClosingDd(s[1..])
  }

  /**
   * One entry of the sub-label list: the name is the text of the cleaned link; the id
   * is what follows the last '/' of the link target, found by cutting `">`, the name
   * and `</a>` (6 + |name| characters) off the end.
   */
  function SubLabel(piece: string, text: string -> string): (r: Result<LabelRef>)
    ensures r.Ok? ==> r.value.name == text(Trim(CutClosingDd(piece)))
    ensures r.Ok? ==> LongMinValue <= r.value.id <= LongMaxValue
  {
    var clean := Trim(CutClosingDd(piece));
    LinkEntry(clean, text(clean))
  }

  /** The entry of a cleaned link whose text is `name`: the id comes from the target before `">name</a>`. */
  function LinkEntry(clean: string, name: string): (r: Result<LabelRef>)
    ensures r.Ok? ==> r.value.name == name && LongMinValue <= r.value.id <= LongMaxValue
  {
    var target :- Substring(clean, 0, |clean| - (|name| + 6));
    var id :- ParseLong(IdText(target));
    Ok(LabelRef(id, name))
  }

  /** The entries of all pieces, in order; the first failing piece aborts the list. */
  function SubLabelList(pieces: seq<string>, text: string -> string): (r: Result<seq<LabelRef>>)
    ensures r.Ok? <==> forall i :: 0 <= i < |pieces| ==> SubLabel(pieces[i], text).Ok?
    ensures r.Ok? ==> |r.value| == |pieces|
    ensures r.Ok? ==> forall i :: 0 <= i < |pieces| ==> r.value[i] == SubLabel(pieces[i], text).value
  {
    AllOk(pieces, piece => SubLabel(piece, text))
  }

  /**
   * parseSubLabels as a value: no sub-labels when the trimmed fragment fails the
   * guard, otherwise one label per comma-separated piece of the fragment.
   */
  function SubLabels(part: string, text: string -> string): (r: Result<seq<LabelRef>>)
    ensures !SubLabelGuard(Trim(part)) ==> r == Ok([])
    ensures SubLabelGuard(Trim(part)) ==> r == SubLabelList(Split(part, ","), text)
  {
    if !SubLabelGuard(Trim(part)) then Ok([]) else SubLabelList(Split(part, ","), text)
  }

  // ---------------------------------------------------------------------------
  // Online shopping, contact data, notes and logo

  /** parseHasOnlineShopping: the text of the fragment equals "Yes", ignoring case. */
  function HasOnlineShopping(part: string, text: string -> string): (r: bool)
    ensures var v := text(part);
      r <==> |v| == 3 && v[0] in "yY" && v[1] in "eE" && v[2] in "sS"
  {
    EqualsIgnoreCase(text(part), "Yes")
  }

  /** The part of the contact fragment before the email link, where the website link is. */
  function WebsitePart(contact: string): (h: string)
    ensures |h| <= |contact| && h == contact[..|h|]
    ensures !Contains(h, EmailMarker)
    ensures Contains(contact, EmailMarker) ==> IndexOf(contact, EmailMarker) == |h|
    ensures !Contains(contact, EmailMarker) ==> h == contact
  {
    if Contains(contact, EmailMarker) then
      var i := IndexOf(contact, EmailMarker);
      SliceBeforeFirst(contact, EmailMarker, 0, i);
      contact[..i]
    else contact
  }

  /**
   * parseLabelWebsiteURL: the null link when the website part has no text, otherwise
   * a link named by that text whose URL is the attribute value after the first `<a href="`.
   */
  function WebsiteLink(contact: string, text: string -> string): (r: Result<Link>)
    ensures Trim(text(WebsitePart(contact))) == [] ==> r == Ok(NullLink)
    ensures r.Ok? && r.value.Link? ==> r.value.name == Trim(text(WebsitePart(contact)))
    ensures r.Ok? && Trim(text(WebsitePart(contact))) != [] ==> r.value.Link?
    ensures Trim(text(WebsitePart(contact))) != [] ==>
      var h := WebsitePart(contact); var b := IndexOf(h, HrefMarker) + 9;
      (r.Ok? <==> b <= |h| && Contains(h[b..], "\""))
    ensures r.Ok? && r.value.Link? ==> '"' !in r.value.url
    ensures r.Ok? && r.value.Link? ==>
      UpTo(WebsitePart(contact), IndexOf(WebsitePart(contact), HrefMarker) + 9, "\"", r.value.url)
  {
    var h := WebsitePart(contact);
    var siteName := Trim(text(h));
    if siteName == [] then Ok(NullLink)
    else
      var url :- UpToFirst(h, IndexOf(h, HrefMarker) + 9, "\"");
      CharBeforeFirst(url, '"', |url|);
      Ok(Link(siteName, url))
  }

  /** The website link once its URL is located. */
  lemma WebsiteLinkAt(contact: string, text: string -> string, h: string, url: string)
    requires WebsitePart(contact) == h && Trim(text(h)) != []
    requires UpToFirst(h, IndexOf(h, HrefMarker) + 9, "\"") == Ok(url)
    ensures WebsiteLink(contact, text) == Ok(Link(Trim(text(h)), url))
  {
  }

  /** A website part that opens with `<a href="url"` yields a link to that URL, named by its text. */
  lemma {:induction false} WebsiteLinkOf(contact: string, text: string -> string, url: string, rest: string)
    requires WebsitePart(contact) == HrefMarker + url + "\"" + rest
    requires '"' !in url && Trim(text(WebsitePart(contact))) != []
    ensures WebsiteLink(contact, text) == Ok(Link(Trim(text(WebsitePart(contact))), url))
  {
    HrefUrl(url, rest);
    WebsiteLinkAt(contact, text, HrefMarker + url + "\"" + rest, url);
  }

  /** The URL of a part that opens with `<a href="url"`. */
  lemma {:induction false} HrefUrl(url: string, rest: string)
    requires '"' !in url
    ensures var h := HrefMarker + url + "\"" + rest;
      UpToFirst(h, IndexOf(h, HrefMarker) + 9, "\"") == Ok(url)
  {
    var h := HrefMarker + url + "\"" + rest;
    assert h == HrefMarker + (url + "\"" + rest);
    IndexOfStart(HrefMarker, url + "\"" + rest);
    assert |HrefMarker| == 9;
    QuoteCloses(url);
    UpToFirstOf(HrefMarker, url, "\"", rest);
  }

  // ---------------------------------------------------------------------------
  // Email

  /** Undoes the page's obfuscation of an address: reverse, then "//" to '@', then '/' to '.'. */
  function DecodeEmail(hidden: string): (r: string)
    ensures '/' !in r
  {
    ReplaceAllRemoves(ReplaceAll(Reverse(hidden), "//", "@"), '/', ".");
    ReplaceAll(ReplaceAll(Reverse(hidden), "//", "@"), "/", ".")
  }

  /** How the page hides one character of an address. */
  function ObfuscateChar(c: char): string {
    if c == '@' then "//" else if c == '.' then "/" else [c]
  }

  function Obfuscate(address: string): string {
    if address == [] then [] else ObfuscateChar(address[0]) + Obfuscate(address[1..])
  }

  /** The hidden form of an address as the page writes it: '@' as "//", '.' as '/', reversed. */
  function EncodeEmail(address: string): string {
    Reverse(Obfuscate(address))
  }

  /**
   * The addresses the decoding gives back: no '/' of their own, and no '.' right
   * before another '.' or an '@' (those would run into a "//" that decodes to '@').
   */
  predicate Decodable(address: string) {
    '/' !in address &&
    forall k :: 0 <= k < |address| - 1 && address[k] == '.' ==> address[k + 1] != '.' && address[k + 1] != '@'
  }

  /** The address with each '.' written as '/'. */
  function DotsToSlashes(address: string): string {
    if address == [] then [] else [if address[0] == '.' then '/' else address[0]] + DotsToSlashes(address[1..])
  }

  /** The first replacement turns exactly the hidden '@'s back. */
  lemma {:induction false} CollapseAt(address: string)
    requires Decodable(address)
    ensures ReplaceAll(Obfuscate(address), "//", "@") == DotsToSlashes(address)
    decreases |address|
  {
    if address != [] {
      var c, rest := address[0], address[1..];
      assert Decodable(rest) by {
        assert forall k :: 0 <= k < |rest| ==> rest[k] == address[k + 1];
      }
      CollapseAt(rest);
      var tail := Obfuscate(rest);
      var s := Obfuscate(address);
      assert s == ObfuscateChar(c) + tail;
      if c == '@' {
        assert s[..2] == "//" && s[2..] == tail;
      } else if |s| >= 2 {
        if c == '.' {
          assert tail == ObfuscateChar(rest[0]) + Obfuscate(rest[1..]);
          assert s[..2][1] != '/';
        } else {
          assert s[..2][0] != '/';
        }
        assert s[1..] == tail;
      }
    }
  }

  /** The second replacement turns the hidden '.'s back. */
  lemma {:induction false} SlashesToDots(address: string)
    requires '/' !in address
    ensures ReplaceAll(DotsToSlashes(address), "/", ".") == address
    decreases |address|
  {
    if address != [] {
      SlashesToDots(address[1..]);
      var s := DotsToSlashes(address);
      assert s[..1] == [s[0]] && s[1..] == DotsToSlashes(address[1..]);
    }
  }

  /** Decoding inverts the page's encoding for every decodable address. */
  lemma DecodeEncode(address: string)
    requires Decodable(address)
    ensures DecodeEmail(EncodeEmail(address)) == address
  {
    ReverseReverse(Obfuscate(address));
    CollapseAt(address);
    SlashesToDots(address);
  }

  /** Two dots in a row come back as an '@': the encoding is not injective. */
  lemma DoubleDotNotRecovered()
    ensures EncodeEmail("a..b") == EncodeEmail("a@b")
    ensures DecodeEmail(EncodeEmail("a..b")) != "a..b"
  {
    assert Obfuscate("a..b") == "a//b" by {
      assert Obfuscate("b") == "b";
      assert Obfuscate(".b") == "/b";
      assert Obfuscate("..b") == "//b";
    }
    assert Obfuscate("a@b") == "a//b" by {
      assert Obfuscate("b") == "b";
      assert Obfuscate("@b") == "//b";
    }
    DecodeEncode("a@b");
  }

  /**
   * parseLabelEmail: "" when the contact fragment has no email link; otherwise the
   * decoded text between the last `">` and the first "</a>" after the email marker.
   */
  function LabelEmail(contact: string): (r: Result<string>)
    ensures !Contains(contact, EmailMarker) ==> r == Ok("")
    ensures Contains(contact, EmailMarker) ==> (r.Ok? <==> HiddenEmail(contact).Ok?)
    ensures Contains(contact, EmailMarker) && r.Ok? ==> r.value == DecodeEmail(HiddenEmail(contact).value)
    ensures r.Ok? ==> '/' !in r.value
  {
    if !Contains(contact, EmailMarker) then Ok("")
    else
      var hidden :- HiddenEmail(contact);
      Ok(DecodeEmail(hidden))
  }

  /**
   * The hidden address of the email link: from the first email marker up to the
   * first "</a>" after it, the text behind the last `">`.
   */
  function HiddenEmail(contact: string): (r: Result<string>)
    ensures r.Ok? ==> !Contains(r.value, "</a>")
  {
    var tail :- Substring(contact, IndexOf(contact, EmailMarker), |contact|);
    var e := IndexOf(tail, "</a>");
    var anchor :- Substring(tail, 0, e);
    var hidden :- Substring(anchor, LastIndexOf(anchor, "\">") + 2, |anchor|);
    SliceBeforeFirst(tail, "</a>", |anchor| - |hidden|, e);
    assert hidden == tail[|anchor| - |hidden|..e];
    Ok(hidden)
  }

  /** The hidden address once the marker, the closing "</a>" and the last `">` are located. */
  lemma HiddenEmailAt(contact: string, i: int, anchor: string, rest: string, hidden: string)
    requires IndexOf(contact, EmailMarker) == i && 0 <= i <= |contact|
    requires contact[i..] == anchor + "</a>" + rest
    requires IndexOf(anchor + "</a>" + rest, "</a>") == |anchor|
    requires |hidden| <= |anchor| && LastIndexOf(anchor, "\">") + 2 == |anchor| - |hidden|
    requires anchor[|anchor| - |hidden|..] == hidden
    ensures HiddenEmail(contact) == Ok(hidden)
  {
    var tail := anchor + "</a>" + rest;
    assert contact[i..|contact|] == tail;
    assert tail[0..|anchor|] == anchor;
    assert anchor[|anchor| - |hidden|..|anchor|] == hidden;
  }

  /** An email link `title="Email">hidden</a>` behind the first email marker yields the decoded address. */
  lemma LabelEmailOf(pre: string, hidden: string, post: string)
    requires IndexOf(pre + EmailMarker, EmailMarker) == |pre|
    requires '"' !in hidden && '<' !in hidden
    ensures LabelEmail(pre + EmailMarker + ">" + hidden + "</a>" + post) == Ok(DecodeEmail(hidden))
  {
    var m := EmailMarker;
    var contact := pre + m + ">" + hidden + "</a>" + post;
    var anchor := m + ">" + hidden;
    assert contact == pre + m + (">" + hidden + "</a>" + post);
    FirstMarker(pre, m, ">" + hidden + "</a>" + post);
    assert contact[|pre|..] == anchor + "</a>" + post;
    assert anchor + "</a>" + post == anchor + ("</a>" + post);
    IndexOfStart("</a>", post);
    assert '<' !in anchor by {
      assert forall k :: 0 <= k < |m| ==> m[k] != '<';
      assert forall k :: |m| < k < |anchor| ==> anchor[k] == hidden[k - |m| - 1];
    }
    IndexOfSkip(anchor, "</a>" + post, "</a>");
    AnchorQuote(m, hidden);
    assert anchor[|anchor| - |hidden|..] == hidden;
    HiddenEmailAt(contact, |pre|, anchor, post, hidden);
  }

  /** The last `">` of `title="Email">hidden` is the one that ends the marker. */
  lemma AnchorQuote(m: string, hidden: string)
    requires |m| > 0 && m[|m| - 1] == '"' && '"' !in hidden
    ensures LastIndexOf(m + ">" + hidden, "\">") == |m| - 1
  {
    var anchor := m + ">" + hidden;
    assert anchor[|m| - 1..|m| + 1] == "\">";
    forall k | |m| - 1 < k < |anchor|
      ensures anchor[k] != '"'
    {
      if k > |m| {
        assert anchor[k] == hidden[k - |m| - 1];
      }
    }
    LastIndexOfAt(anchor, "\">", |m| - 1);
  }

  /** The hidden address of the source's example, inside its email link, decodes to geil@google.com. */
  lemma LabelEmailExample(pre: string, post: string)
    requires IndexOf(pre + EmailMarker, EmailMarker) == |pre|
    ensures LabelEmail(pre + EmailMarker + ">" + "moc/elgoog//lieg" + "</a>" + post) == Ok("geil@google.com")
  {
    var hidden := "moc/elgoog//lieg";
    assert forall k :: 0 <= k < |hidden| ==> hidden[k] != '"' && hidden[k] != '<';
    LabelEmailOf(pre, hidden, post);
    EmailExample();
  }

  // ---------------------------------------------------------------------------
  // Notes and logo

  /**
   * replaceAll("<.?p>", "<br><br>"): at each position a '<', one optional character
   * that is not a line terminator, 'p' and '>' are replaced, the longer match first.
   */
  function ParagraphsToBreaks(s: string): (r: string)
    ensures '<' !in s ==> r == s
    decreases |s|
  {
    if |s| == 0 then s
    else if |s| >= 4 && s[0] == '<' && !IsLineTerminator(s[1]) && s[2] == 'p' && s[3] == '>' then
      "<br><br>" + ParagraphsToBreaks(s[4..])
    else if |s| >= 3 && s[0] == '<' && s[1] == 'p' && s[2] == '>' then
      "<br><br>" + ParagraphsToBreaks(s[3..])
    else
      [s[0]] + ParagraphsToBreaks(s[1..])
  }

  /** An opening paragraph tag becomes two line breaks. */
  lemma ParagraphOpens(b: string)
    ensures ParagraphsToBreaks("<p>" + b) == "<br><br>" + ParagraphsToBreaks(b)
  {
    var s := "<p>" + b;
    assert s[0] == '<' && s[1] == 'p' && s[2] == '>' && s[3..] == b;
  }

  /** A closing paragraph tag becomes two line breaks. */
  lemma ParagraphCloses(b: string)
    ensures ParagraphsToBreaks("</p>" + b) == "<br><br>" + ParagraphsToBreaks(b)
  {
    var s := "</p>" + b;
    assert s[0] == '<' && s[1] == '/' && s[2] == 'p' && s[3] == '>' && s[4..] == b;
  }

  /** Text without '<' is copied as it is. */
  lemma {:induction false} PlainKept(a: string, b: string)
    requires '<' !in a
    ensures ParagraphsToBreaks(a + b) == a + ParagraphsToBreaks(b)
    decreases |a|
  {
    if a != [] {
      var c, rest, t := a[0], a[1..], a[1..] + b;
      assert a + b == [c] + t;
      PlainStep(c, t);
      PlainKept(rest, b);
      assert a == [c] + rest;
    } else {
      assert a + b == b;
    }
  }

  /** A character other than '<' is copied as it is. */
  lemma PlainStep(c: char, t: string)
    requires c != '<'
    ensures ParagraphsToBreaks([c] + t) == [c] + ParagraphsToBreaks(t)
  {
    assert ([c] + t)[1..] == t;
  }

  /** Plain text is kept, and an opening or closing paragraph tag becomes two line breaks. */
  lemma {:induction false} ParagraphTagsToBreaks(a: string, b: string)
    requires '<' !in a
    ensures ParagraphsToBreaks(a + "<p>" + b) == a + "<br><br>" + ParagraphsToBreaks(b)
    ensures ParagraphsToBreaks(a + "</p>" + b) == a + "<br><br>" + ParagraphsToBreaks(b)
  {
    assert a + "<p>" + b == a + ("<p>" + b);
    PlainKept(a, "<p>" + b);
    ParagraphOpens(b);
    assert a + "</p>" + b == a + ("</p>" + b);
    PlainKept(a, "</p>" + b);
    ParagraphCloses(b);
  }

  /** A paragraph of plain text is framed by two line breaks on each side. */
  lemma {:induction false} ParagraphOf(t: string)
    requires '<' !in t
    ensures ParagraphsToBreaks("<p>" + t + "</p>") == "<br><br>" + t + "<br><br>"
  {
    assert "<p>" + t + "</p>" == "<p>" + (t + "</p>");
    ParagraphOpens(t + "</p>");
    PlainKept(t, "</p>");
    ParagraphCloses([]);
    assert "</p>" + [] == "</p>";
    assert ParagraphsToBreaks([]) == [];
  }

  /**
   * parseAdditionalNotes: "" without a notes block; otherwise the page from the notes
   * marker up to the audit-trail marker, paragraphs turned into breaks, rendered by
   * the line-separator helper. It fails when the audit trail comes first or is missing.
   */
  function AdditionalNotes(html: string, lineSeparated: string -> string): (r: Result<string>)
    ensures !Contains(html, NotesMarker) ==> r == Ok("")
    ensures Contains(html, NotesMarker) ==> (r.Ok? <==> IndexOf(html, NotesMarker) <= IndexOf(html, AuditMarker))
    ensures Contains(html, NotesMarker) && r.Ok? ==>
      r.value == lineSeparated(ParagraphsToBreaks(html[IndexOf(html, NotesMarker)..IndexOf(html, AuditMarker)]))
  {
    if !Contains(html, NotesMarker) then Ok("")
    else
      var notes :- Substring(html, IndexOf(html, NotesMarker), IndexOf(html, AuditMarker));
      Ok(lineSeparated(ParagraphsToBreaks(notes)))
  }

  /** The notes once both markers are located. */
  lemma NotesAt(html: string, lineSeparated: string -> string, b: int, e: int, notes: string)
    requires IndexOf(html, NotesMarker) == b && IndexOf(html, AuditMarker) == e && 0 <= b <= e
    requires e <= |html| && html[b..e] == notes
    ensures AdditionalNotes(html, lineSeparated) == Ok(lineSeparated(ParagraphsToBreaks(notes)))
  {
    assert Contains(html, NotesMarker);
    assert Substring(html, b, e) == Ok(notes);
  }

  /** Where the two markers lie in a page made of a notes block and an audit trail. */
  lemma {:induction false} NotesBounds(pre: string, notes: string, post: string)
    requires IndexOf(pre + notes, NotesMarker) == |pre|
    requires IndexOf(pre + notes + AuditMarker, AuditMarker) == |pre| + |notes|
    ensures var html := pre + notes + AuditMarker + post;
      IndexOf(html, NotesMarker) == |pre| && IndexOf(html, AuditMarker) == |pre| + |notes|
      && html[|pre|..|pre| + |notes|] == notes
  {
    var html := pre + notes + AuditMarker + post;
    assert html == (pre + notes) + (AuditMarker + post);
    IndexOfExtend(pre + notes, AuditMarker + post, NotesMarker);
    FirstMarker(pre + notes, AuditMarker, post);
    assert html[|pre|..|pre| + |notes|] == notes;
  }

  /**
   * A notes block that opens with the first notes marker of the page and is closed
   * by the first audit-trail marker is rendered whole, marker included.
   */
  lemma {:induction false} AdditionalNotesOf(pre: string, notes: string, post: string, lineSeparated: string -> string)
    requires IndexOf(pre + notes, NotesMarker) == |pre|
    requires IndexOf(pre + notes + AuditMarker, AuditMarker) == |pre| + |notes|
    ensures AdditionalNotes(pre + notes + AuditMarker + post, lineSeparated)
         == Ok(lineSeparated(ParagraphsToBreaks(notes)))
  {
    NotesBounds(pre, notes, post);
    NotesAt(pre + notes + AuditMarker + post, lineSeparated, |pre|, |pre| + |notes|, notes);
  }

  /**
   * parseLogoUrl: null without a logo; otherwise the attribute value after the first
   * `src="` that follows the logo marker, up to the next '"'.
   */
  function LogoUrl(html: string): (r: Result<Option<string>>)
    ensures !Contains(html, ImageMarker) ==> r == Ok(None)
    ensures Contains(html, ImageMarker) && r.Ok? ==> r.value.Some?
    ensures Contains(html, ImageMarker) ==> var t := IndexOf(html, ImageMarker) + 16;
      (r.Ok? <==> t <= |html| && var b := IndexOf(html[t..], "src=\"") + 5;
                  0 <= b <= |html[t..]| && Contains(html[t..][b..], "\""))
    ensures Contains(html, ImageMarker) && r.Ok? ==>
      var t := IndexOf(html, ImageMarker) + 16;
      0 <= t <= |html| && UpTo(html[t..], IndexOf(html[t..], "src=\"") + 5, "\"", r.value.value)
    ensures r.Ok? && r.value.Some? ==> '"' !in r.value.value
  {
    if !Contains(html, ImageMarker) then Ok(None)
    else
      var t := IndexOf(html, ImageMarker) + 16;
      var tail :- Substring(html, t, |html|);
      assert tail == html[t..];
      var url :- UpToFirst(tail, IndexOf(tail, "src=\"") + 5, "\"");
      CharBeforeFirst(url, '"', |url|);
      Ok(Some(url))
  }

  /** The logo URL of a page whose logo marker comes first, read from where the marker's last quote is. */
  lemma LogoUrlAt(html: string, tail: string, url: string)
    requires IndexOf(html, ImageMarker) >= 0 && html[IndexOf(html, ImageMarker) + 16..] == tail
    requires UpToFirst(tail, IndexOf(tail, "src=\"") + 5, "\"") == Ok(url)
    ensures LogoUrl(html) == Ok(Some(url))
  {
    assert |ImageMarker| == 17;
    var t := IndexOf(html, ImageMarker) + 16;
    assert Contains(html, ImageMarker);
    assert html[t..|html|] == html[t..];
    assert Substring(html, t, |html|) == Ok(tail);
  }

  /** A logo behind the first logo marker yields the value of the first `src` attribute after it. */
  lemma {:induction false} LogoUrlOf(pre: string, mid: string, url: string, post: string)
    requires IndexOf(pre + ImageMarker, ImageMarker) == |pre|
    requires 's' !in mid && '"' !in url
    ensures LogoUrl(pre + ImageMarker + mid + "src=\"" + url + "\"" + post) == Ok(Some(url))
  {
    var q, src := "\"", "src=\"";
    var tail := q + mid + src + url + q + post;
    var html := pre + ImageMarker + mid + src + url + q + post;
    assert ImageMarker == ImageMarker[..16] + q;
    assert html == pre + ImageMarker + (mid + src + url + q + post);
    FirstMarker(pre, ImageMarker, mid + src + url + q + post);
    assert html[|pre| + 16..] == tail;
    SrcUrl(q + mid, url, post);
    LogoUrlAt(html, tail, url);
  }

  /** The value of the first `src` attribute of a text whose lead holds no 's'. */
  lemma {:induction false} SrcUrl(lead: string, url: string, post: string)
    requires 's' !in lead && '"' !in url
    ensures var tail := lead + "src=\"" + url + "\"" + post;
      UpToFirst(tail, IndexOf(tail, "src=\"") + 5, "\"") == Ok(url)
  {
    var q, src := "\"", "src=\"";
    var tail := lead + src + url + q + post;
    IndexOfAfter(lead, src, url + q + post);
    assert tail == lead + src + (url + q + post);
    QuoteCloses(url);
    UpToFirstOf(lead + src, url, q, post);
  }

  // ---------------------------------------------------------------------------
  // Extractors applied to well-formed fragments

  lemma {:induction false} ObfuscateConcat(a: string, b: string)
    ensures Obfuscate(a + b) == Obfuscate(a) + Obfuscate(b)
    decreases |a|
  {
    if a == [] {
      assert a + b == b;
    } else {
      assert (a + b)[0] == a[0] && (a + b)[1..] == a[1..] + b;
      ObfuscateConcat(a[1..], b);
    }
  }

  lemma {:induction false} ReverseConcat(a: string, b: string)
    ensures Reverse(a + b) == Reverse(b) + Reverse(a)
  {
    var l, r := Reverse(a + b), Reverse(b) + Reverse(a);
    assert |l| == |r|;
    forall k | 0 <= k < |l| ensures l[k] == r[k] {
      if k < |b| {
        assert r[k] == Reverse(b)[k];
      } else {
        assert r[k] == Reverse(a)[k - |b|];
      }
    }
  }

  lemma {:induction false} ObfuscatePlain(s: string)
    requires '@' !in s && '.' !in s
    ensures Obfuscate(s) == s
    decreases |s|
  {
    if s != [] {
      ObfuscatePlain(s[1..]);
    }
  }

  lemma ObfuscateShape(user: string, host: string, tld: string)
    requires '@' !in user && '.' !in user && '@' !in host && '.' !in host && '@' !in tld && '.' !in tld
    ensures Obfuscate(user + "@" + host + "." + tld) == user + "//" + host + "/" + tld
  {
    ObfuscatePlain(user);
    ObfuscatePlain(host);
    ObfuscatePlain(tld);
    assert Obfuscate("@") == "//" && Obfuscate(".") == "/";
    ObfuscateConcat(user + "@" + host + ".", tld);
    ObfuscateConcat(user + "@" + host, ".");
    ObfuscateConcat(user + "@", host);
    ObfuscateConcat(user, "@");
  }

  lemma {:induction false} ReverseShape(user: string, host: string, tld: string)
    ensures Reverse(user + "//" + host + "/" + tld) == Reverse(tld) + "/" + Reverse(host) + "//" + Reverse(user)
  {
    var at, dot := "//", "/";
    var x1 := user + at;
    var x2 := x1 + host;
    var x3 := x2 + dot;
    var rt, rh, ru := Reverse(tld), Reverse(host), Reverse(user);
    calc {
      Reverse(x3 + tld);
    == { ReverseConcat(x3, tld); }
      rt + Reverse(x3);
    == { ReverseConcat(x2, dot); assert Reverse(dot) == dot; }
      rt + (dot + Reverse(x2));
    == { ReverseConcat(x1, host); }
      rt + (dot + (rh + Reverse(x1)));
    == { ReverseConcat(user, at); assert Reverse(at) == at; }
      rt + (dot + (rh + (at + ru)));
    == { assert rt + (dot + (rh + (at + ru))) == rt + dot + rh + at + ru; }
      rt + dot + rh + at + ru;
    }
  }

  /** An address user@host.tld made of plain parts is hidden as dlt/tsoh//resu. */
  lemma EncodeShape(user: string, host: string, tld: string)
    requires '@' !in user && '.' !in user && '@' !in host && '.' !in host && '@' !in tld && '.' !in tld
    ensures EncodeEmail(user + "@" + host + "." + tld) == Reverse(tld) + "/" + Reverse(host) + "//" + Reverse(user)
  {
    ObfuscateShape(user, host, tld);
    ReverseShape(user, host, tld);
  }

  lemma ExampleDecodable()
    ensures Decodable("geil@google.com")
  {
    var a := "geil@google.com";
    assert forall k :: 0 <= k < |a| ==> a[k] != '/';
    assert forall k :: 0 <= k < |a| - 1 && a[k] == '.' ==> k == 11;
  }

  lemma ExampleReversed()
    ensures Reverse("com") == "moc" && Reverse("google") == "elgoog" && Reverse("geil") == "lieg"
  {
    ReverseOf("com", "moc");
    ReverseOf("google", "elgoog");
    ReverseOf("geil", "lieg");
  }

  lemma ExampleParts()
    ensures Reverse("com") + "/" + Reverse("google") + "//" + Reverse("geil") == "moc/elgoog//lieg"
    ensures "geil" + "@" + "google" + "." + "com" == "geil@google.com"
  {
    ExampleReversed();
  }

  /** The hidden address of the example in the source comment decodes as shown there. */
  lemma EmailExample()
    ensures DecodeEmail("moc/elgoog//lieg") == "geil@google.com"
  {
    EncodeShape("geil", "google", "com");
    ExampleParts();
    ExampleDecodable();
    DecodeEncode("geil@google.com");
  }

  /** Between finds the text framed by the first `open` and a `close` whose first character is new. */
  lemma BetweenOf(open: string, mid: string, close: string, post: string)
    requires |open| > 0 && |close| > 0 && close[0] !in open + mid
    ensures Between(open + mid + close + post, open, close) == Ok(mid)
  {
    var s := open + mid + close + post;
    assert s == open + (mid + close + post);
    IndexOfStart(open, mid + close + post);
    assert s == (open + mid) + (close + post);
    IndexOfStart(close, post);
    IndexOfSkip(open + mid, close + post, close);
    assert s[|open|..|open| + |mid|] == mid;
  }

  /**
   * Between finds `mid` behind a prefix that holds no first character of `open`,
   * when no first character of `close` comes before `mid` ends.
   */
  lemma {:induction false} BetweenAt(pre: string, open: string, mid: string, close: string, post: string)
    requires |open| > 0 && |close| > 0 && open[0] !in pre && close[0] !in pre + open + mid
    ensures Between(pre + open + mid + close + post, open, close) == Ok(mid)
  {
    var s := pre + open + mid + close + post;
    assert s == pre + open + (mid + close + post);
    IndexOfAfter(pre, open, mid + close + post);
    IndexOfAfter(pre + open + mid, close, post);
    assert s[|pre| + |open|..|pre| + |open| + |mid|] == mid;
  }

  /** A country entry `>name</dd>` yields the name. */
  lemma CountryNameOf(pre: string, name: string, post: string)
    requires '>' !in pre && '<' !in pre + name
    ensures CountryName(pre + ">" + name + "</dd>" + post) == Ok(name)
  {
    assert '<' !in pre + ">" + name;
    BetweenAt(pre, ">", name, "</dd>", post);
  }

  /** A status entry `">status</span>` yields the status. */
  lemma StatusNameOf(pre: string, status: string, post: string)
    requires '"' !in pre && '<' !in pre + status
    ensures StatusName(pre + "\">" + status + "</sp" + post) == Ok(status)
  {
    assert '<' !in pre + "\">" + status;
    BetweenAt(pre, "\">", status, "</sp", post);
  }

  /** A phone entry `> number</dd>` yields the number without its outer white space. */
  lemma PhoneNumberOf(pre: string, number: string, post: string)
    requires '>' !in pre && '<' !in pre + number
    ensures PhoneNumber(pre + "> " + number + "</dd>" + post) == Ok(Trim(number))
  {
    assert '<' !in pre + "> " + number;
    BetweenAt(pre, "> ", number, "</dd>", post);
  }

  /**
   * An entry whose first character is skipped and whose value is closed by
   * " </dd>" yields the value, as speciality and as founding date alike.
   */
  lemma SpecialisedInOf(first: char, value: string, post: string)
    requires '<' !in [first] + value
    ensures SpecialisedIn([first] + value + " </dd>" + post) == Ok(value)
    ensures FoundingDate([first] + value + " </dd>" + post) == Ok(value)
  {
    var s := [first] + value + " </dd>" + post;
    var i := 1 + |value|;
    assert s[i..i + 6] == " </dd>";
    forall j | 0 <= j < i + 1
      ensures s[j] != '<'
    {
      if j < i {
        assert s[j] == ([first] + value)[j];
      }
    }
    IndexOfByChar(s, " </dd>", i, 1);
    assert s[1..i] == value;
  }

  /** The first occurrence of a marker that ends the prefix is still first after anything is appended. */
  lemma FirstMarker(pre: string, marker: string, post: string)
    requires IndexOf(pre + marker, marker) == |pre|
    ensures IndexOf(pre + marker + post, marker) == |pre|
  {
    IndexOfExtend(pre + marker, post, marker);
  }

  /**
   * A heading `<h1 class="label_name">name</h1>` whose marker is the first one on the
   * page yields exactly the text between the tags, whatever follows it.
   */
  lemma LabelNameOf(pre: string, name: string, post: string)
    requires IndexOf(pre + NameMarker, NameMarker) == |pre|
    requires '<' !in name
    ensures LabelName(pre + NameMarker + name + "</h1>" + post) == Ok(name)
  {
    var marker := NameMarker;
    var html := pre + marker + name + "</h1>" + post;
    FirstMarker(pre, marker, name + "</h1>" + post);
    assert html == pre + marker + (name + "</h1>" + post);
    assert |marker| == 23 && marker[22..] == ">";
    var rest := html[|pre| + 22..];
    assert rest == ">" + name + "</h1>" + post;
    BetweenOf(">", name, "</h1>", post);
    LabelNameAt(html, |pre|);
  }

  lemma LabelNameAt(html: string, i: int)
    requires IndexOf(html, NameMarker) == i && 0 <= i + 22 <= |html|
    ensures LabelName(html) == Between(html[i + 22..], ">", "</h1>")
  {
    var r := Substring(html, i + 22, |html|);
    assert r.Ok?;
    assert r.value == html[i + 22..];
  }

  /** A page that opens with the heading yields the heading's text. */
  lemma LabelNameFirst(name: string)
    requires '<' !in name
    ensures LabelName(NameMarker + name + "</h1>") == Ok(name)
  {
    IndexOfStart(NameMarker, []);
    assert [] + NameMarker == NameMarker + [];
    assert [] + NameMarker + name + "</h1>" + [] == NameMarker + name + "</h1>";
    LabelNameOf([], name, []);
  }

  /** The example heading from the label page of Metal Blade Records. */
  lemma LabelNameExample()
    ensures LabelName(NameMarker + "Metal Blade Records" + "</h1>") == Ok("Metal Blade Records")
  {
    LabelNameFirst("Metal Blade Records");
  }

  /** The id text of a link target ".../digits" is the digits. */
  lemma IdTextOf(prefix: string, digits: string)
    requires '/' !in digits
    ensures IdText(prefix + "/" + digits) == digits
  {
    var s := prefix + "/" + digits;
    assert s[|prefix|..|prefix| + 1] == "/";
    LastIndexOfAt(s, "/", |prefix|);
  }

  /** The markup of a link `<a href="target">name</a>` as the page writes it. */
  function Anchor(target: string, name: string): (a: string)
    ensures |a| == 15 + |target| + |name|
    ensures a == OpenLink(target, name) + "</a>"
  {
    HrefMarker + target + "\">" + name + "</a>"
  }

  /** A link up to its closing tag: `<a href="target">name`. */
  function OpenLink(target: string, name: string): (a: string)
    ensures |a| == 11 + |target| + |name|
    ensures a[..9 + |target|] == HrefMarker + target
    ensures a[9 + |target|..] == "\">" + name
  {
    HrefMarker + target + "\">" + name
  }

  /** Text that cannot end or start a tag or an attribute value. */
  predicate Plain(s: string) {
    '"' !in s && '>' !in s && '<' !in s
  }

  /** A closing tag, or a run of them: it starts with "</". */
  predicate ClosingTag(close: string) {
    |close| >= 2 && close[0] == '<' && close[1] == '/'
  }

  lemma NotOccursLonger(s: string, p: string, q: string, j: int)
    requires !Occurs(s, p, j)
    ensures !Occurs(s, p + q, j)
  {
    if 0 <= j && j + |p + q| <= |s| {
      assert s[j..j + |p|] == s[j..j + |p + q|][..|p|];
    }
  }

  /** In a link whose target has no '"' and no '>', the first `">` closes the opening tag. */
  lemma AnchorQuoteFirst(target: string, rest: string)
    requires '"' !in target && '>' !in target
    ensures IndexOf(HrefMarker + target + "\">" + rest, "\">") == 9 + |target|
  {
    var qc := "\">";
    var s := HrefMarker + target + qc + rest;
    var t := "\"" + target + qc + rest;
    assert s == "<a href=" + t;
    assert t[1..] == target + (qc + rest);
    assert t[0..2][1] == t[1];
    IndexOfSkip("<a href=", t, qc);
    IndexOfNotAtStart(t, qc);
    IndexOfStart(qc, rest);
    IndexOfSkip(target, qc + rest, qc);
  }

  /** In a link whose target and text have no '<', the first closing tag `</...` is the link's own. */
  lemma AnchorCloseFirst(target: string, name: string, close: string, post: string)
    requires '<' !in target && '<' !in name && ClosingTag(close)
    ensures IndexOf(OpenLink(target, name) + (close + post), close) == 11 + |target| + |name|
  {
    var s := OpenLink(target, name) + (close + post);
    var a := "a href=\"" + target + "\">" + name;
    assert s == "<" + (a + (close + post));
    assert s[1..] == a + (close + post);
    assert s[1] == 'a';
    assert s[0..|close|][1] == s[1];
    IndexOfNotAtStart(s, close);
    IndexOfStart(close, post);
    IndexOfSkip(a, close + post, close);
  }

  /** The `">`...closing-tag frame of a link holds exactly the link text. */
  lemma AnchorBetween(target: string, name: string, close: string, post: string)
    requires Plain(target) && '<' !in name && ClosingTag(close)
    ensures Between(OpenLink(target, name) + (close + post), "\">", close) == Ok(name)
  {
    var part := OpenLink(target, name) + (close + post);
    assert part == HrefMarker + target + "\">" + (name + close + post);
    assert part[11 + |target|..11 + |target| + |name|] == name;
    AnchorQuoteFirst(target, name + close + post);
    AnchorCloseFirst(target, name, close, post);
  }

  /** The first `">` followed by the link text is the end of the opening tag. */
  lemma AnchorNameFirst(target: string, name: string, rest: string)
    requires Plain(target)
    ensures IndexOf(OpenLink(target, name) + rest, "\">" + name) == 9 + |target|
  {
    var part := OpenLink(target, name) + rest;
    var i := 9 + |target|;
    assert part == HrefMarker + target + "\">" + (name + rest);
    assert part[i..i + 2 + |name|] == "\">" + name;
    AnchorQuoteFirst(target, name + rest);
    forall j | 0 <= j < i ensures !Occurs(part, "\">" + name, j) {
      NotOccursLonger(part, "\">", name, j);
    }
    IndexOfFirst(part, "\">" + name, i);
  }

  lemma AnchorPrefix(target: string, name: string, rest: string)
    ensures (OpenLink(target, name) + rest)[..9 + |target|] == HrefMarker + target
  {
    assert (OpenLink(target, name) + rest)[..9 + |target|] == OpenLink(target, name)[..9 + |target|];
  }

  lemma TargetIsPlain(host: string, n: nat)
    requires Plain(host)
    ensures Plain(host + "/" + Decimal(n))
  {
    var digits := Decimal(n);
    assert forall k :: 0 <= k < |digits| ==> IsDigit(digits[k]);
  }

  /** The id at the end of a link target `host/digits`. */
  lemma LinkTargetId(host: string, n: nat)
    requires n <= LongMaxValue
    ensures ParseLong(IdText(HrefMarker + (host + "/" + Decimal(n)))) == Ok(n)
  {
    var digits := Decimal(n);
    assert forall k :: 0 <= k < |digits| ==> IsDigit(digits[k]);
    assert HrefMarker + (host + "/" + digits) == (HrefMarker + host) + "/" + digits;
    IdTextOf(HrefMarker + host, digits);
    ParseLongDecimal(n);
  }

  lemma ParentLabelAt(part: string, i: int, name: string, target: string, id: int)
    requires Between(part, "\">", "</a></dd>") == Ok(name)
    requires IndexOf(part, "\">" + name) == i && 0 <= i <= |part|
    requires part[..i] == target && ParseLong(IdText(target)) == Ok(id)
    ensures ParentLabel(part) == Ok(LabelRef(id, name))
  {
  }

  lemma AnchorThenClose(target: string, name: string, post: string)
    ensures Anchor(target, name) + "</dd>" + post == OpenLink(target, name) + ("</a></dd>" + post)
  {
    assert "</a></dd>" == "</a>" + "</dd>";
  }

  /**
   * The parent-label fragment `<a href="host/id">name</a></dd>...` yields the label
   * with that id and name.
   */
  lemma ParentLabelParts(host: string, n: nat, name: string, post: string)
    requires Plain(host) && '<' !in name && n <= LongMaxValue
    ensures var target := host + "/" + Decimal(n);
      var part := OpenLink(target, name) + ("</a></dd>" + post);
      && Between(part, "\">", "</a></dd>") == Ok(name)
      && IndexOf(part, "\">" + name) == 9 + |target|
  {
    var target := host + "/" + Decimal(n);
    var close := "</a></dd>";
    assert ClosingTag(close);
    TargetIsPlain(host, n);
    AnchorBetween(target, name, close, post);
    AnchorNameFirst(target, name, close + post);
  }

  lemma ParentLabelOf(host: string, n: nat, name: string, post: string)
    requires Plain(host) && '<' !in name && n <= LongMaxValue
    ensures ParentLabel(Anchor(host + "/" + Decimal(n), name) + "</dd>" + post) == Ok(LabelRef(n, name))
  {
    var target := host + "/" + Decimal(n);
    AnchorThenClose(target, name, post);
    ParentLabelParts(host, n, name, post);
    AnchorPrefix(target, name, "</a></dd>" + post);
    LinkTargetId(host, n);
    ParentLabelAt(OpenLink(target, name) + ("</a></dd>" + post), 9 + |target|, name, HrefMarker + target, n);
  }

  // ---------------------------------------------------------------------------
  // Sub-labels of well-formed fragments

  /** Text without '<' holds no "</dd>" and passes through the cut unchanged. */
  lemma {:induction false} CutPlain(a: string, b: string)
    requires '<' !in a
    ensures CutClosingDd(a + b) == a + CutClosingDd(b)
    decreases |a|
  {
    if a == [] {
      assert a + b == b;
    } else {
      var s := a + b;
      assert s[0] == a[0] && s[1..] == a[1..] + b;
      assert !StartsWithClosingDd(s);
      CutPlain(a[1..], b);
      assert CutClosingDd(s) == [a[0]] + CutClosingDd(a[1..] + b);
    }
  }

  /** Text without '<' holds no "</dd>" and is left as it is. */
  lemma CutWithoutTags(s: string)
    requires '<' !in s
    ensures CutClosingDd(s) == s
  {
    CutPlain(s, []);
    assert s + [] == s;
  }

  /** A '<' that does not open a closing tag is kept. */
  lemma CutOpenTag(x: string)
    requires |x| > 0 && x[0] != '/'
    ensures CutClosingDd("<" + x) == "<" + CutClosingDd(x)
  {
    var s := "<" + x;
    assert s[1] == x[0] && s[1..] == x;
  }

  /** The closing tag of a link is kept. */
  lemma CutCloseLink(rest: string)
    ensures CutClosingDd("</a>" + rest) == "</a>" + CutClosingDd(rest)
  {
    var s := "</a>" + rest;
    assert s[1] == '/' && s[2] == 'a' && s[1..] == "/a>" + rest;
    assert !StartsWithClosingDd(s);
    CutPlain("/a>", rest);
    assert CutClosingDd(s) == "<" + CutClosingDd("/a>" + rest);
  }

  /** A link whose target and text have no '<' passes through the cut unchanged. */
  lemma {:induction false} CutAnchor(target: string, name: string, rest: string)
    requires '<' !in target && '<' !in name
    ensures CutClosingDd(Anchor(target, name) + rest) == Anchor(target, name) + CutClosingDd(rest)
  {
    var inner := AnchorInner(target, name);
    var close, tail := "</a>", CutClosingDd(rest);
    AnchorParts(target, name, rest);
    AnchorParts(target, name, tail);
    calc {
      CutClosingDd("<" + (inner + (close + rest)));
    == { CutOpenTag(inner + (close + rest)); }
      "<" + CutClosingDd(inner + (close + rest));
    == { CutPlain(inner, close + rest); }
      "<" + (inner + CutClosingDd(close + rest));
    == { CutCloseLink(rest); }
      "<" + (inner + (close + tail));
    }
  }

  /** What lies between the '<' and the "</a>" of a link. */
  function AnchorInner(target: string, name: string): (inner: string)
    requires '<' !in target && '<' !in name
    ensures |inner| > 0 && inner[0] == 'a' && '<' !in inner
  {
    var inner := "a href=\"" + target + "\">" + name;
    assert forall k :: 0 <= k < |inner| ==> inner[k] != '<' by {
      forall k | 0 <= k < |inner|
        ensures inner[k] != '<'
      {
        if 8 <= k < 8 + |target| {
          assert inner[k] == target[k - 8];
        } else if 10 + |target| <= k {
          assert inner[k] == name[k - 10 - |target|];
        }
      }
    }
    inner
  }

  lemma {:induction false} AnchorParts(target: string, name: string, rest: string)
    requires '<' !in target && '<' !in name
    ensures Anchor(target, name) + rest == "<" + (AnchorInner(target, name) + ("</a>" + rest))
  {
    assert HrefMarker == "<" + "a href=\"";
  }

  /** "</dd>" and the rest of its line are cut away. */
  lemma CutClosingLine(b: string)
    requires NoLineTerminator(b)
    ensures CutClosingDd("</dd>" + b) == []
  {
    var s := "</dd>" + b;
    assert StartsWithClosingDd(s);
    assert s[5..] == b;
  }

  /** Cutting `">`, the text and `</a>` off the end of a link leaves `<a href="target`. */
  lemma AnchorTarget(target: string, name: string)
    ensures var a := Anchor(target, name);
      |a| - (|name| + 6) == 9 + |target| && a[..9 + |target|] == HrefMarker + target
  {
    AnchorPrefix(target, name, "</a>");
  }

  lemma SubLabelAt(piece: string, text: string -> string, clean: string, name: string, target: string, id: int)
    requires Trim(CutClosingDd(piece)) == clean && text(clean) == name
    requires 0 <= |clean| - (|name| + 6) && clean[..|clean| - (|name| + 6)] == target
    requires ParseLong(IdText(target)) == Ok(id)
    ensures SubLabel(piece, text) == Ok(LabelRef(id, name))
  {
    assert LinkEntry(clean, name) == Ok(LabelRef(id, name)) by {
      assert Substring(clean, 0, |clean| - (|name| + 6)) == Ok(target);
    }
  }

  lemma SubLabelOfAnchor(piece: string, text: string -> string, target: string, name: string, id: int)
    requires Trim(CutClosingDd(piece)) == Anchor(target, name) && text(Anchor(target, name)) == name
    requires ParseLong(IdText(HrefMarker + target)) == Ok(id)
    ensures SubLabel(piece, text) == Ok(LabelRef(id, name))
  {
    AnchorTarget(target, name);
    SubLabelAt(piece, text, Anchor(target, name), name, HrefMarker + target, id);
  }

  /**
   * A piece that cleans up to a link `<a href="host/id">name</a>` whose rendered text
   * is `name` yields the label with that id and name.
   */
  lemma SubLabelOfLink(piece: string, text: string -> string, host: string, n: nat, name: string)
    requires n <= LongMaxValue
    requires Trim(CutClosingDd(piece)) == Anchor(host + "/" + Decimal(n), name)
    requires text(Anchor(host + "/" + Decimal(n), name)) == name
    ensures SubLabel(piece, text) == Ok(LabelRef(n, name))
  {
    LinkTargetId(host, n);
    SubLabelOfAnchor(piece, text, host + "/" + Decimal(n), name, n);
  }

  /** Text that may stand inside a link of a sub-label list: no markup, no comma, one line. */
  predicate Inline(s: string) {
    Plain(s) && ',' !in s && NoLineTerminator(s)
  }

  lemma DecimalInline(n: nat)
    ensures Inline(Decimal(n))
  {
    var digits := Decimal(n);
    assert forall k :: 0 <= k < |digits| ==> IsDigit(digits[k]);
  }

  /** A link piece: one line without a comma, of the length of a link, opening and closing a tag. */
  predicate LinkPiece(a: string) {
    ',' !in a && NoLineTerminator(a) && |a| >= 10 && a[0] == '<' && a[|a| - 1] == '>'
  }

  /** A link made of inline text is a link piece. */
  lemma AnchorInline(host: string, n: nat, name: string)
    requires Inline(host) && Inline(name)
    ensures LinkPiece(Anchor(host + "/" + Decimal(n), name))
  {
    DecimalInline(n);
    var target := host + "/" + Decimal(n);
    assert Inline(target);
    var a := Anchor(target, name);
    assert a == HrefMarker + target + "\">" + name + "</a>";
    assert ',' !in HrefMarker && NoLineTerminator(HrefMarker);
    assert NoLineTerminator("</a>") && NoLineTerminator("\">");
  }

  /** Once the guard holds, each comma-separated piece contributes its own label, in order. */
  lemma SubLabelsOfPieces(part: string, text: string -> string, pieces: seq<string>, labels: seq<LabelRef>)
    requires SubLabelGuard(Trim(part)) && Split(part, ",") == pieces && |labels| == |pieces|
    requires forall i :: 0 <= i < |pieces| ==> SubLabel(pieces[i], text) == Ok(labels[i])
    ensures SubLabels(part, text) == Ok(labels)
  {
    var r := SubLabelList(pieces, text);
    assert r.Ok?;
    assert r.value == labels;
  }

  /** The first piece that fails decides the failure of the whole list. */
  lemma SubLabelsOfFailure(part: string, text: string -> string, pieces: seq<string>, i: int)
    requires SubLabelGuard(Trim(part)) && Split(part, ",") == pieces
    requires 0 <= i < |pieces| && SubLabel(pieces[i], text).Err?
    requires forall j :: 0 <= j < i ==> SubLabel(pieces[j], text).Ok?
    ensures SubLabels(part, text) == Err(SubLabel(pieces[i], text).failure)
  {
    AllOkFirstFailure(pieces, piece => SubLabel(piece, text), i);
  }

  /** The two-piece case of SubLabelsOfPieces. */
  lemma SubLabelsOfPair(part: string, text: string -> string, p1: string, p2: string, l1: LabelRef, l2: LabelRef)
    requires SubLabelGuard(Trim(part)) && Split(part, ",") == [p1, p2]
    requires SubLabel(p1, text) == Ok(l1) && SubLabel(p2, text) == Ok(l2)
    ensures SubLabels(part, text) == Ok([l1, l2])
  {
    AllOkPair(piece => SubLabel(piece, text), p1, p2, l1, l2);
  }

  /** A bare link cleans up to itself. */
  lemma CleanLink(host: string, n: nat, name: string)
    requires Inline(host) && Inline(name)
    ensures var a := Anchor(host + "/" + Decimal(n), name);
      Trim(CutClosingDd(a)) == a
  {
    var a := Anchor(host + "/" + Decimal(n), name);
    AnchorInline(host, n, name);
    DecimalInline(n);
    CutAnchor(host + "/" + Decimal(n), name, []);
    assert a + [] == a;
  }

  /** A link after a space and before the closing "</dd>" cleans up to the link. */
  lemma CleanLastLink(host: string, n: nat, name: string)
    requires Inline(host) && Inline(name)
    ensures var a := Anchor(host + "/" + Decimal(n), name);
      Trim(CutClosingDd(" " + a + "</dd>")) == a
  {
    var a := Anchor(host + "/" + Decimal(n), name);
    AnchorInline(host, n, name);
    DecimalInline(n);
    assert " " + a + "</dd>" == " " + (a + ("</dd>" + []));
    CutPlain(" ", a + ("</dd>" + []));
    CutAnchor(host + "/" + Decimal(n), name, "</dd>" + []);
    CutClosingLine([]);
    assert a + [] == a;
    TrimAfterSpaces(" ", a);
  }

  /** The fragment "link, link</dd>" splits after the first link. */
  lemma TwoLinkSplit(a1: string, a2: string)
    requires ',' !in a1 && ',' !in a2
    ensures Split(a1 + ", " + a2 + "</dd>", ",") == [a1, " " + a2 + "</dd>"]
  {
    var p2 := " " + a2 + "</dd>";
    assert a1 + ", " + a2 + "</dd>" == a1 + [','] + p2;
    assert ',' !in p2 && p2 != [];
    SplitOnce(a1, p2, ',');
  }

  /** The fragment "link, link</dd>" passes the guard. */
  lemma TwoLinkGuard(a1: string, a2: string)
    requires NoLineTerminator(a1) && |a1| >= 10 && a1[0] == '<'
    requires NoLineTerminator(a2)
    ensures SubLabelGuard(Trim(a1 + ", " + a2 + "</dd>"))
  {
    var body := a1 + ", " + a2 + "</dd";
    var part := body + ">";
    assert "</dd" + ">" == "</dd>";
    assert part == a1 + ", " + a2 + "</dd>";
    assert part[..|part| - 1] == body;
    assert NoLineTerminator(body);
    assert part[0] == '<' && part[|part| - 1] == '>';
  }

  /** The fragment "piece, piece</dd>" yields the labels of its two pieces. */
  lemma TwoSubLabelsOf(text: string -> string, a1: string, a2: string, l1: LabelRef, l2: LabelRef)
    requires LinkPiece(a1) && LinkPiece(a2)
    requires SubLabel(a1, text) == Ok(l1) && SubLabel(" " + a2 + "</dd>", text) == Ok(l2)
    ensures SubLabels(a1 + ", " + a2 + "</dd>", text) == Ok([l1, l2])
  {
    TwoLinkSplit(a1, a2);
    TwoLinkGuard(a1, a2);
    SubLabelsOfPair(a1 + ", " + a2 + "</dd>", text, a1, " " + a2 + "</dd>", l1, l2);
  }

  /**
   * `<a href="host1/id1">name1</a>, <a href="host2/id2">name2</a></dd>` yields the two
   * labels, in order, when each link renders as its own text.
   */
  lemma TwoSubLabels(text: string -> string, host1: string, n1: nat, name1: string, host2: string, n2: nat, name2: string)
    requires Inline(host1) && Inline(name1) && n1 <= LongMaxValue
    requires Inline(host2) && Inline(name2) && n2 <= LongMaxValue
    requires text(Anchor(host1 + "/" + Decimal(n1), name1)) == name1
    requires text(Anchor(host2 + "/" + Decimal(n2), name2)) == name2
    ensures var a1, a2 := Anchor(host1 + "/" + Decimal(n1), name1), Anchor(host2 + "/" + Decimal(n2), name2);
      SubLabels(a1 + ", " + a2 + "</dd>", text) == Ok([LabelRef(n1, name1), LabelRef(n2, name2)])
  {
    var a1, a2 := Anchor(host1 + "/" + Decimal(n1), name1), Anchor(host2 + "/" + Decimal(n2), name2);
    AnchorInline(host1, n1, name1);
    AnchorInline(host2, n2, name2);
    CleanLink(host1, n1, name1);
    SubLabelOfLink(a1, text, host1, n1, name1);
    CleanLastLink(host2, n2, name2);
    SubLabelOfLink(" " + a2 + "</dd>", text, host2, n2, name2);
    TwoSubLabelsOf(text, a1, a2, LabelRef(n1, name1), LabelRef(n2, name2));
  }

  lemma ExampleTargets()
    ensures "/labels/Foo" + "/" + Decimal(7) == "/labels/Foo/7"
    ensures "/labels/Bar" + "/" + Decimal(9) == "/labels/Bar/9"
  {
    assert Decimal(7) == "7";
    assert Decimal(9) == "9";
  }

  /**
   * The fragment `<a href="/labels/Foo/7">Foo</a>, <a href="/labels/Bar/9">Bar</a></dd>`
   * yields the ids 7 and 9 with the names Foo and Bar, in that order.
   */
  lemma SubLabelsExample(text: string -> string)
    requires text(Anchor("/labels/Foo/7", "Foo")) == "Foo"
    requires text(Anchor("/labels/Bar/9", "Bar")) == "Bar"
    ensures SubLabels(Anchor("/labels/Foo/7", "Foo") + ", " + Anchor("/labels/Bar/9", "Bar") + "</dd>", text)
      == Ok([LabelRef(7, "Foo"), LabelRef(9, "Bar")])
  {
    ExampleTargets();
    assert Inline("/labels/Foo") && Inline("/labels/Bar");
    assert Inline("Foo") && Inline("Bar");
    TwoSubLabels(text, "/labels/Foo", 7, "Foo", "/labels/Bar", 9, "Bar");
  }
}
