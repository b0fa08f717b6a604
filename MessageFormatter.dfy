/**
 * `MessageFormatter` of `message_formatter.py`: one Markdown diary entry per
 * message kind, keyword-based smart tags, and the entry separator. The clock
 * reading arrives already rendered (`time`), `\w` is `isWord`, and the
 * human-readable file size is the parameter `formatSize`.
 */
module MessageFormatter {
  import opened Common
  import opened TextUtils

  /** A number from the message metadata: how Python prints it and whether it is zero (falsy). */
  datatype Num = Num(shown: string, isZero: bool)

  /** The metadata keys the entries read; `None` is a missing key. */
  datatype Metadata = Metadata(
    fileName: Option<string>,
    fileSize: Option<int>,
    duration: Option<Num>,
    latitude: Option<Num>,
    longitude: Option<Num>)

  const NoMetadata: Metadata := Metadata(None, None, None, None, None)

  /** Python truthiness of an optional string or number. */
  predicate HasText(v: Option<string>) {
    v.Some? && v.value != ""
  }

  predicate NonZero(v: Option<Num>) {
    v.Some? && !v.value.isZero
  }

  /** An optional `\n\n<label><value>` block. */
  function Block(show: bool, labelText: string, value: string): string {
    if show then "\n\n" + labelText + value else ""
  }

  const TagLabelLine: string := "\n\n🏷️ 标签: "

  /** The tag line that closes every entry with tags. */
  function TagLine(tags: seq<string>): string {
    if |tags| > 0 then TagLabelLine + TagList(tags) else ""
  }

  /** `_format_text_entry`. */
  function TextEntry(isWord: char -> bool, text: string, time: string): (e: Entry)
    ensures e.tags == Hashtags(isWord, text)
    ensures StartsWith(e.content, Heading(time) + text)
    ensures e.content[|Heading(time) + text|..] == TagLine(e.tags)
  {
    var tags := Hashtags(isWord, text);
    Entry(Heading(time) + text + TagLine(tags), tags)
  }

  const PhotoMark: string := "📷 图片"
  const DocumentMark: string := "📄 文档"
  const VoiceMark: string := "🎤 语音消息"
  const LocationMark: string := "📍 位置"
  const UnknownFile: string := "未知文件"

  /** `_format_photo_entry`. */
  function PhotoEntry(isWord: char -> bool, caption: string, time: string, meta: Metadata): (e: Entry)
    ensures e.tags == Hashtags(isWord, caption)
    ensures StartsWith(e.content, Heading(time) + PhotoMark)
    ensures EndsWith(e.content, TagLine(e.tags))
  {
    var tags := Hashtags(isWord, caption);
    Entry(Heading(time) + PhotoMark
          + Block(caption != "", "描述: ", caption)
          + Block(HasText(meta.fileName), "文件: ", meta.fileName.GetOr(""))
          + TagLine(tags), tags)
  }

  /** `_format_document_entry`; `formatSize` is `_format_file_size`. */
  function DocumentEntry(isWord: char -> bool, formatSize: int -> string, caption: string, time: string, meta: Metadata): (e: Entry)
    ensures e.tags == Hashtags(isWord, caption)
    ensures StartsWith(e.content, Heading(time) + DocumentMark + "\n\n文件名: " + meta.fileName.GetOr(UnknownFile))
    ensures EndsWith(e.content, TagLine(e.tags))
  {
    var tags := Hashtags(isWord, caption);
    var sizeShown := meta.fileSize.Some? && meta.fileSize.value != 0;
    Entry(Heading(time) + DocumentMark
          + "\n\n文件名: " + meta.fileName.GetOr(UnknownFile)
          + Block(caption != "", "描述: ", caption)
          + (if sizeShown then "\n大小: " + formatSize(meta.fileSize.value) else "")
          + TagLine(tags), tags)
  }

  /** `_format_voice_entry`. */
  function VoiceEntry(isWord: char -> bool, caption: string, time: string, meta: Metadata): (e: Entry)
    ensures e.tags == Hashtags(isWord, caption)
    ensures StartsWith(e.content, Heading(time) + VoiceMark)
    ensures EndsWith(e.content, TagLine(e.tags))
  {
    var tags := Hashtags(isWord, caption);
    var duration := if meta.duration.Some? then meta.duration.value.shown else "";
    Entry(Heading(time) + VoiceMark
          + Block(NonZero(meta.duration), "时长: ", duration + "秒")
          + Block(caption != "", "备注: ", caption)
          + TagLine(tags), tags)
  }

  /** The coordinates line and the map link of a location. */
  function CoordinateLines(lat: string, lon: string): string {
    "\n\n坐标: " + lat + ", " + lon + "\n\n[地图链接](https://maps.google.com/maps?q=" + lat + "," + lon + ")"
  }

  /** `_format_location_entry`: coordinates and map link only when both are non-zero. */
  function LocationEntry(isWord: char -> bool, caption: string, time: string, meta: Metadata): (e: Entry)
    ensures e.tags == Hashtags(isWord, caption)
    ensures StartsWith(e.content, Heading(time) + LocationMark)
    ensures EndsWith(e.content, TagLine(e.tags))
  {
    var tags := Hashtags(isWord, caption);
    var both := NonZero(meta.latitude) && NonZero(meta.longitude);
    Entry(Heading(time) + LocationMark
          + (if both then CoordinateLines(meta.latitude.value.shown, meta.longitude.value.shown) else "")
          + Block(caption != "", "备注: ", caption)
          + TagLine(tags), tags)
  }

  /** `format_diary_entry`: dispatch on the message kind; any other kind is laid out as text. */
  function FormatDiaryEntry(isWord: char -> bool, formatSize: int -> string, text: string, kind: string,
                            time: string, meta: Metadata): (e: Entry)
    ensures e.tags == Hashtags(isWord, text)
    ensures StartsWith(e.content, Heading(time))
  {
    match kind
    case "text" => TextEntry(isWord, text, time)
    case "photo" => PhotoEntry(isWord, text, time, meta)
    case "document" => DocumentEntry(isWord, formatSize, text, time, meta)
    case "voice" => VoiceEntry(isWord, text, time, meta)
    case "location" => LocationEntry(isWord, text, time, meta)
    case _ => TextEntry(isWord, text, time)
  }

  // ---------------------------------------------------------------------------
  // Properties of the entries
  // ---------------------------------------------------------------------------

  /** An unknown message kind gets the text layout. */
  lemma UnknownKindIsText(isWord: char -> bool, formatSize: int -> string, text: string, kind: string,
                          time: string, meta: Metadata)
    requires kind !in {"text", "photo", "document", "voice", "location"}
    ensures FormatDiaryEntry(isWord, formatSize, text, kind, time, meta) == TextEntry(isWord, text, time)
  {
  }

  /** A text without `#` is the heading and the text, nothing more. */
  lemma UntaggedTextEntry(isWord: char -> bool, text: string, time: string)
    requires '#' !in text
    ensures TextEntry(isWord, text, time) == Entry(Heading(time) + text, [])
  {
    NoHashNoTags(isWord, text);
  }

  /** The tag line written into any entry reads back as the entry's tags. */
  lemma TagLineReadsBack(isWord: char -> bool, tags: seq<string>)
    requires !isWord(',') && !isWord(' ')
    requires forall k :: 0 <= k < |tags| ==> IsTag(isWord, tags[k])
    ensures Hashtags(isWord, TagLine(tags)) == tags
  {
    if |tags| > 0 {
      assert TagLabelLine[|TagLabelLine| - 1] == ' ';
      LabelledTagList(isWord, TagLabelLine, tags);
    }
  }

  /** A photo without caption or file name is just the heading and the photo mark. */
  lemma BarePhoto(isWord: char -> bool, time: string, meta: Metadata)
    requires !HasText(meta.fileName)
    ensures PhotoEntry(isWord, "", time, meta) == Entry(Heading(time) + PhotoMark, [])
  {
  }

  /** Without a caption there is no caption line and no tags, whatever the metadata holds. */
  lemma UncaptionedPhoto(isWord: char -> bool, time: string, meta: Metadata)
    ensures PhotoEntry(isWord, "", time, meta)
         == Entry(Heading(time) + PhotoMark + Block(HasText(meta.fileName), "文件: ", meta.fileName.GetOr("")), [])
  {
    NoHashNoTags(isWord, "");
  }

  /** An empty file name hides the file line exactly as a missing one does. */
  lemma EmptyFileNameHidden(isWord: char -> bool, caption: string, time: string, meta: Metadata)
    requires meta.fileName == Some("")
    ensures PhotoEntry(isWord, caption, time, meta) == PhotoEntry(isWord, caption, time, meta.(fileName := None))
  {
  }

  /** Without a `file_name` key the document is named `未知文件`; an empty name stays empty. */
  lemma DocumentNameDefault(isWord: char -> bool, formatSize: int -> string, caption: string, time: string, meta: Metadata)
    ensures meta.fileName.None? ==>
      StartsWith(DocumentEntry(isWord, formatSize, caption, time, meta).content, Heading(time) + DocumentMark + "\n\n文件名: 未知文件")
    ensures meta.fileName == Some("") ==>
      StartsWith(DocumentEntry(isWord, formatSize, caption, time, meta).content, Heading(time) + DocumentMark + "\n\n文件名: ")
  {
    var lead := Heading(time) + DocumentMark + "\n\n文件名: ";
    if meta.fileName.None? {
      assert lead + meta.fileName.GetOr(UnknownFile) == lead + "未知文件";
    } else if meta.fileName == Some("") {
      assert lead + meta.fileName.GetOr(UnknownFile) == lead;
    }
  }

  /** A zero size hides the size line exactly as a missing size does. */
  lemma ZeroSizeHidden(isWord: char -> bool, formatSize: int -> string, caption: string, time: string, meta: Metadata)
    requires meta.fileSize == Some(0)
    ensures DocumentEntry(isWord, formatSize, caption, time, meta)
         == DocumentEntry(isWord, formatSize, caption, time, meta.(fileSize := None))
  {
  }

  /** A zero duration hides the duration line exactly as a missing duration does. */
  lemma ZeroDurationHidden(isWord: char -> bool, caption: string, time: string, meta: Metadata)
    requires meta.duration.Some? && meta.duration.value.isZero
    ensures VoiceEntry(isWord, caption, time, meta) == VoiceEntry(isWord, caption, time, meta.(duration := None))
  {
  }

  /** A zero latitude or longitude hides both the coordinates and the map link. */
  lemma ZeroCoordinateHidden(isWord: char -> bool, caption: string, time: string, meta: Metadata)
    requires !NonZero(meta.latitude) || !NonZero(meta.longitude)
    ensures LocationEntry(isWord, caption, time, meta) == LocationEntry(isWord, caption, time, NoMetadata)
  {
  }

  /** With both coordinates the location entry shows them, then the map link. */
  lemma LocationShowsCoordinates(isWord: char -> bool, time: string, lat: Num, lon: Num)
    requires !lat.isZero && !lon.isZero
    ensures LocationEntry(isWord, "", time, NoMetadata.(latitude := Some(lat), longitude := Some(lon))).content
         == Heading(time) + LocationMark + CoordinateLines(lat.shown, lon.shown)
  {
    assert Hashtags(isWord, "") == [];
  }

  // ---------------------------------------------------------------------------
  // extract_smart_hashtags
  // ---------------------------------------------------------------------------

  const WorkKeywords: seq<string> := ["工作", "项目", "会议", "任务", "完成", "开发", "编程"]
  const LifeKeywords: seq<string> := ["生活", "心情", "天气", "吃饭", "朋友", "家人"]
  const StudyKeywords: seq<string> := ["学习", "读书", "课程", "知识", "笔记"]

  /** Some keyword of `keywords` occurs in `text`. */
  predicate Mentions(text: string, keywords: seq<string>) {
    exists k :: 0 <= k < |keywords| && Contains(text, keywords[k])
  }

  /** The tags `extract_smart_hashtags` promises: the `#` tags plus one per mentioned keyword group. */
  predicate SmartTag(isWord: char -> bool, text: string, t: string) {
    || t in Hashtags(isWord, text)
    || (t == "work" && Mentions(text, WorkKeywords))
    || (t == "life" && Mentions(text, LifeKeywords))
    || (t == "study" && Mentions(text, StudyKeywords))
  }

  /** One keyword loop: append `tag` once when some keyword occurs and the tag is not there yet. */
  method AddIfMentioned(text: string, keywords: seq<string>, tag: string, tags: seq<string>) returns (r: seq<string>)
    ensures r == tags || r == tags + [tag]
    ensures forall t :: t in r <==> t in tags || (t == tag && Mentions(text, keywords))
  {
    r := tags;
    var k := 0;
    while k < |keywords|
      invariant k <= |keywords|
      invariant r == tags || r == tags + [tag]
      invariant forall t :: t in r <==> t in tags || (t == tag && Mentions(text, keywords[..k]))
    {
      if Contains(text, keywords[k]) && tag !in r {
        r := r + [tag];
      }
      assert keywords[..k + 1][k] == keywords[k];
      assert forall j :: 0 <= j < k ==> keywords[..k + 1][j] == keywords[..k][j];
      k := k + 1;
    }
    assert keywords[..k] == keywords;
  }

  /** `extract_smart_hashtags`: the `#` tags and the keyword tags, each once. */
  method ExtractSmartHashtags(isWord: char -> bool, text: string) returns (r: seq<string>)
    ensures NoDup(r)
    ensures forall t :: t in r <==> SmartTag(isWord, text, t)
  {
    var tags := Hashtags(isWord, text);
    tags := AddIfMentioned(text, WorkKeywords, "work", tags);
    tags := AddIfMentioned(text, LifeKeywords, "life", tags);
    tags := AddIfMentioned(text, StudyKeywords, "study", tags);
    r := Dedup(tags);
  }

  /** A text without keywords gets exactly its `#` tags, once each. */
  lemma NoKeywordNoSmartTag(isWord: char -> bool, text: string, t: string)
    requires !Mentions(text, WorkKeywords) && !Mentions(text, LifeKeywords) && !Mentions(text, StudyKeywords)
    ensures SmartTag(isWord, text, t) <==> t in Hashtags(isWord, text)
  {
  }

  // ---------------------------------------------------------------------------
  // create_separator
  // ---------------------------------------------------------------------------

  function Repeat(c: char, n: nat): (r: string)
    ensures |r| == n && forall i :: 0 <= i < n ==> r[i] == c
  {
    if n == 0 then "" else [c] + Repeat(c, n - 1)
  }

  /** `create_separator`: a line break, fifty box-drawing dashes, a line break. */
  function CreateSeparator(): (r: string)
    ensures |r| == 52 && r[0] == '\n' && r[51] == '\n'
    ensures forall i :: 1 <= i <= 50 ==> r[i] == '─'
  {
    "\n" + Repeat('─', 50) + "\n"
  }
}
