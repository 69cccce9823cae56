/**
 * The record extractor: what `parse_metadata_only` and `parse_image_data`
 * take from each item container of the catalog page.
 *
 * The HTML parser is not modelled. A container is given as what the parser's
 * searches find inside it: the `href` of its first anchor that has one, its
 * `data-top` region (holding the first `img` of class `data-img lazy`), and its
 * `data-bottom` region (its anchors in document order, its first `b` element and
 * its first `span` of class `data-smallt`). An element's text is the sequence of
 * text nodes below it.
 */
module Catalog {
  import opened Wrappers
  import opened Text
  import opened Lists
  import opened Annotation
  import opened Filename

  /** An element, given by the text nodes below it, in document order. */
  datatype Element = Element(strings: seq<string>)

  datatype Anchor = Anchor(href: Option<string>, text: Element)

  /** An `img` element: its `data-original` and `src` attributes, when present. */
  datatype Image = Image(dataOriginal: Option<string>, src: Option<string>)

  /** The `data-top` region: the first `img` of class `data-img lazy` in it. */
  datatype TopRegion = TopRegion(lazyImage: Option<Image>)

  /** The `data-bottom` region. */
  datatype BottomRegion = BottomRegion(anchors: seq<Anchor>, bold: Option<Element>, smallText: Option<Element>)

  /** One `div` of class `data-small-xlong`. */
  datatype Container = Container(firstHref: Option<string>, top: Option<TopRegion>, bottom: Option<BottomRegion>)

  /** A row of `parse_metadata_only`. */
  datatype Metadata = Metadata(
    character: string,
    series: string,
    mainName: string,
    imageUrl: string,
    thumbnailUrl: string,
    year: Option<string>,
    itemType: ItemType,
    createdAt: string)

  /** A row of `parse_image_data`: where to fetch from and the name to save under. */
  datatype ImageTask = ImageTask(url: string, filename: string)

  /** `get_text(strip=True)`: every text node stripped, empty ones dropped, the
      rest concatenated. */
  function GetText(e: Element): (r: string)
    ensures Trimmed(r)
  {
    StrippedConcat(e.strings)
  }

  function StrippedConcat(strings: seq<string>): (r: string)
    ensures Trimmed(r)
  {
    if strings == [] then []
    else
      var head := Strip(strings[0]);
      var rest := StrippedConcat(strings[1..]);
      TrimmedConcat(head, rest);
      head + rest
  }

  /** The text of an element that may be missing; a missing one reads as "". */
  function TextOf(e: Option<Element>): (r: string)
    ensures e.None? ==> r == []
    ensures Trimmed(r)
  {
    match e
    case None => []
    case Some(el) => GetText(el)
  }

  const SeriesPath: string := "/pop-mart/series/"
  const LinePath: string := "/pop-mart/line/"

  /** The `href` filter: present, non-empty and containing `path`. */
  predicate LinksTo(a: Anchor, path: string) {
    a.href.Some? && a.href.value != [] && Contains(a.href.value, path)
  }

  /** The first anchor whose link contains `path`, as `find('a', href=...)` gives it. */
  function FindLink(anchors: seq<Anchor>, path: string): (r: Option<Anchor>)
    ensures r.None? <==> forall i :: 0 <= i < |anchors| ==> !LinksTo(anchors[i], path)
    ensures r.Some? ==> exists i :: 0 <= i < |anchors| && anchors[i] == r.value && LinksTo(r.value, path)
                                    && forall j :: 0 <= j < i ==> !LinksTo(anchors[j], path)
  {
    if anchors == [] then None
    else if LinksTo(anchors[0], path) then Some(anchors[0])
    else
      var r := FindLink(anchors[1..], path);
      assert forall j :: 1 <= j < |anchors| ==> anchors[j] == anchors[1..][j - 1];
      r
  }

  /** The stripped text of the first anchor linking to `path`; "" when none does. */
  function LinkText(anchors: seq<Anchor>, path: string): (r: string)
    ensures Trimmed(r)
    ensures (forall i :: 0 <= i < |anchors| ==> !LinksTo(anchors[i], path)) ==> r == []
  {
    match FindLink(anchors, path)
    case None => []
    case Some(a) => GetText(a.text)
  }

  /** The four texts of the bottom region; each is "" when its element is missing. */
  datatype BottomTexts = BottomTexts(series: string, mainName: string, character: string, smallText: string)

  function BottomTextsOf(b: BottomRegion): (t: BottomTexts)
    ensures t.series == LinkText(b.anchors, SeriesPath)
    ensures t.character == LinkText(b.anchors, LinePath)
    ensures t.mainName == TextOf(b.bold) && t.smallText == TextOf(b.smallText)
    ensures Trimmed(t.series) && Trimmed(t.mainName) && Trimmed(t.character) && Trimmed(t.smallText)
  {
    BottomTexts(LinkText(b.anchors, SeriesPath), TextOf(b.bold), LinkText(b.anchors, LinePath), TextOf(b.smallText))
  }

  /** The thumbnail: `data-original` when present and non-empty, else `src`
      when present, else "". */
  function Thumbnail(top: Option<TopRegion>): (r: string)
    ensures top.None? || top.value.lazyImage.None? ==> r == []
    ensures top.Some? && top.value.lazyImage.Some? ==>
              var img := top.value.lazyImage.value;
              (img.dataOriginal.Some? && img.dataOriginal.value != [] ==> r == img.dataOriginal.value)
              && (!(img.dataOriginal.Some? && img.dataOriginal.value != []) ==> r == img.src.GetOr([]))
  {
    match top
    case None => []
    case Some(t) =>
      match t.lazyImage
      case None => []
      case Some(img) =>
        if img.dataOriginal.Some? && img.dataOriginal.value != [] then img.dataOriginal.value
        else if img.src.Some? then img.src.value
        else []
  }

  /** The record of one container, or `None` when it has no linked image or
      no bottom region. `now` is the capture time already formatted. */
  function ContainerMetadata(c: Container, now: string): (r: Option<Metadata>)
    ensures r.None? <==> c.firstHref.None? || c.bottom.None?
    ensures r.Some? ==>
              var t := BottomTextsOf(c.bottom.value);
              && r.value.imageUrl == c.firstHref.value
              && r.value.thumbnailUrl == Thumbnail(c.top)
              && r.value.character == t.character && r.value.series == t.series
              && r.value.mainName == t.mainName
              && (r.value.year, r.value.itemType) == ExtractYearAndType(t.smallText)
              && r.value.createdAt == now
  {
    match c.firstHref
    case None => None
    case Some(url) =>
      match c.bottom
      case None => None
      case Some(b) =>
        var t := BottomTextsOf(b);
        var (year, itemType) := ExtractYearAndType(t.smallText);
        Some(Metadata(t.character, t.series, t.mainName, url, Thumbnail(c.top), year, itemType, now))
  }

  function MetadataOf(now: string): Container -> Option<Metadata>
  {
    c => ContainerMetadata(c, now)
  }

  /** The download task of one container, or `None` when it has no linked
      image or no bottom region. */
  function ContainerTask(c: Container): (r: Option<ImageTask>)
    ensures r.None? <==> c.firstHref.None? || c.bottom.None?
    ensures r.Some? ==>
              var t := BottomTextsOf(c.bottom.value);
              && r.value.url == c.firstHref.value
              && r.value.filename == DerivedFilename(t.character, t.series, t.mainName, t.smallText)
  {
    match c.firstHref
    case None => None
    case Some(url) =>
      match c.bottom
      case None => None
      case Some(b) =>
        var t := BottomTextsOf(b);
        Some(ImageTask(url, DerivedFilename(t.character, t.series, t.mainName, t.smallText)))
  }

  /** `parse_metadata_only` over the containers `find_all` returned. */
  method ParseMetadataOnly(containers: seq<Container>, now: string) returns (metadataList: seq<Metadata>)
    ensures metadataList == FilterMap(MetadataOf(now), containers)
  {
    metadataList := [];
    for i := 0 to |containers|
      invariant metadataList == FilterMap(MetadataOf(now), containers[..i])
    {
      var container := containers[i];
      FilterMapStep(MetadataOf(now), containers, i);
      if container.firstHref.None? {
        continue;
      }
      var imgUrl := container.firstHref.value;
      var thumbnailUrl := Thumbnail(container.top);
      if container.bottom.None? {
        continue;
      }
      var texts := BottomTextsOf(container.bottom.value);
      var (year, itemType) := ExtractYearAndType(texts.smallText);
      metadataList := metadataList + [Metadata(texts.character, texts.series, texts.mainName,
                                               imgUrl, thumbnailUrl, year, itemType, now)];
    }
    assert containers[..|containers|] == containers;
  }

  /** `parse_image_data` over the containers `find_all` returned. */
  method ParseImageData(containers: seq<Container>) returns (imageData: seq<ImageTask>)
    ensures imageData == FilterMap(ContainerTask, containers)
  {
    imageData := [];
    for i := 0 to |containers|
      invariant imageData == FilterMap(ContainerTask, containers[..i])
    {
      var container := containers[i];
      FilterMapStep(ContainerTask, containers, i);
      if container.firstHref.None? {
        continue;
      }
      var imgUrl := container.firstHref.value;
      if container.bottom.None? {
        continue;
      }
      var texts := BottomTextsOf(container.bottom.value);
      var filename := DeriveFilename(texts.character, texts.series, texts.mainName, texts.smallText);
      imageData := imageData + [ImageTask(imgUrl, filename)];
    }
    assert containers[..|containers|] == containers;
  }

  /** A container both loops use: it has a linked image and a bottom region. */
  predicate WellFormed(c: Container) {
    c.firstHref.Some? && c.bottom.Some?
  }

  /** The records come one per well-formed container, in document order: the
      k-th record is the record of the container at the k-th kept index, those
      indices increase, and every well-formed container is among them. */
  lemma RecordsInDocumentOrder(containers: seq<Container>, now: string)
    ensures var ms, ks := FilterMap(MetadataOf(now), containers), Kept(MetadataOf(now), containers);
            && |ks| == |ms| <= |containers|
            && (forall k :: 0 <= k < |ks| ==>
                  ks[k] < |containers| && WellFormed(containers[ks[k]])
                  && Some(ms[k]) == ContainerMetadata(containers[ks[k]], now)
                  && ms[k].imageUrl == containers[ks[k]].firstHref.value)
            && (forall k, l :: 0 <= k < l < |ks| ==> ks[k] < ks[l])
            && (forall i :: 0 <= i < |containers| && WellFormed(containers[i]) ==> i in ks)
  {
    FilterMapOrigin(MetadataOf(now), containers);
  }

  /** A container with no linked image or no bottom region adds no record, and
      the containers around it are processed as if it were absent. */
  lemma MalformedContainerSkipped(before: seq<Container>, c: Container, after: seq<Container>, now: string)
    requires !WellFormed(c)
    ensures FilterMap(MetadataOf(now), before + [c] + after)
            == FilterMap(MetadataOf(now), before) + FilterMap(MetadataOf(now), after)
    ensures FilterMap(ContainerTask, before + [c] + after)
            == FilterMap(ContainerTask, before) + FilterMap(ContainerTask, after)
  {
    FilterMapSkip(MetadataOf(now), before, c, after);
    FilterMapSkip(ContainerTask, before, c, after);
  }

  /** Three good containers followed by one without a bottom region give the
      three records of the good ones, in their order. */
  lemma ThreeGoodOneMalformed(c1: Container, c2: Container, c3: Container, bad: Container, now: string)
    requires WellFormed(c1) && WellFormed(c2) && WellFormed(c3) && bad.bottom.None?
    ensures FilterMap(MetadataOf(now), [c1, c2, c3, bad])
            == [ContainerMetadata(c1, now).value, ContainerMetadata(c2, now).value, ContainerMetadata(c3, now).value]
  {
    ThreeKeptOneDropped(MetadataOf(now), c1, c2, c3, bad);
  }

  /** The two passes pick the same containers: there are as many download tasks
      as records, and the k-th task fetches the k-th record's image. */
  lemma RecordsMatchTasks(containers: seq<Container>, now: string)
    ensures var ms, ts := FilterMap(MetadataOf(now), containers), FilterMap(ContainerTask, containers);
            |ms| == |ts| && forall k :: 0 <= k < |ms| ==> ms[k].imageUrl == ts[k].url
  {
    var f, g := MetadataOf(now), ContainerTask;
    FilterMapOrigin(f, containers);
    FilterMapOrigin(g, containers);
    KeptSameDomain(f, g, containers);
  }

  /** Every download task is saved under a safe name. */
  lemma TasksHaveSafeNames(containers: seq<Container>)
    ensures var ts := FilterMap(ContainerTask, containers);
            forall k :: 0 <= k < |ts| ==> SafeName(ts[k].filename)
  {
    var ts := FilterMap(ContainerTask, containers);
    FilterMapOrigin(ContainerTask, containers);
    forall k | 0 <= k < |ts|
      ensures SafeName(ts[k].filename)
    {
      var c := containers[Kept(ContainerTask, containers)[k]];
      var t := BottomTextsOf(c.bottom.value);
      DerivedFilenameShape(t.character, t.series, t.mainName, t.smallText);
    }
  }

  /** No download task's file name holds a '/', so each names a file directly
      inside the output directory. */
  lemma TaskNamesHaveNoSlash(containers: seq<Container>, k: nat)
    requires k < |FilterMap(ContainerTask, containers)|
    ensures var n := FilterMap(ContainerTask, containers)[k].filename;
            forall i :: 0 <= i < |n| ==> n[i] != '/'
  {
    TasksHaveSafeNames(containers);
    assert '/' in InvalidSet;
  }
}
