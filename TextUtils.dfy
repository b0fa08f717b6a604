/**
 * The string helpers of `utils.py`: filename sanitising, hashtag extraction,
 * the diary-entry layout of `format_message_content`, and the diary date and
 * title. Python's Unicode `\w` is the parameter `isWord`; the clock is a
 * parameter (`time`, `date`).
 */
module TextUtils {
  import opened Common

  // ---------------------------------------------------------------------------
  // Hashtags: `re.findall(r'#(\w+)', text)`
  // ---------------------------------------------------------------------------

  /** Length of the run of word characters at the front of `s` (greedy `\w+`). */
  function WordRun(isWord: char -> bool, s: string): (n: nat)
    ensures n <= |s|
    ensures forall i :: 0 <= i < n ==> isWord(s[i])
    ensures n < |s| ==> !isWord(s[n])
  {
    if |s| == 0 || !isWord(s[0]) then 0 else 1 + WordRun(isWord, s[1..])
  }

  /** A run is determined by where it stops: the first non-word character, or the end. */
  lemma WordRunUnique(isWord: char -> bool, s: string, m: nat)
    requires m <= |s|
    requires forall i :: 0 <= i < m ==> isWord(s[i])
    requires m < |s| ==> !isWord(s[m])
    ensures WordRun(isWord, s) == m
  {
  }

  /** A non-empty tag made only of word characters. */
  predicate IsTag(isWord: char -> bool, t: string) {
    |t| > 0 && forall j :: 0 <= j < |t| ==> isWord(t[j])
  }

  /**
   * The tags of `text`, left to right: each maximal run of word characters
   * right after a `#`; scanning resumes after the run, as `findall` does.
   */
  function Hashtags(isWord: char -> bool, text: string): (tags: seq<string>)
    ensures forall k :: 0 <= k < |tags| ==> IsTag(isWord, tags[k])
    decreases |text|
  {
    if |text| < 2 then []
    else if text[0] == '#' && isWord(text[1]) then
      var n := WordRun(isWord, text[1..]);
      [text[1..1 + n]] + Hashtags(isWord, text[1 + n..])
    else Hashtags(isWord, text[1..])
  }

  /** Since `#` is not a word character, no tag contains a `#`. */
  lemma TagsHaveNoHash(isWord: char -> bool, text: string)
    requires !isWord('#')
    ensures forall t :: t in Hashtags(isWord, text) ==> '#' !in t
  {
    forall t | t in Hashtags(isWord, text)
      ensures '#' !in t
    {
      var k :| 0 <= k < |Hashtags(isWord, text)| && Hashtags(isWord, text)[k] == t;
      assert IsTag(isWord, t);
    }
  }

  /** Text without a `#` has no tags. */
  lemma {:induction false} NoHashNoTags(isWord: char -> bool, text: string)
    requires '#' !in text
    ensures Hashtags(isWord, text) == []
    decreases |text|
  {
    if |text| >= 2 {
      assert text[0] != '#';
      NoHashNoTags(isWord, text[1..]);
    }
  }

  /** A character that ends a tag and cannot start one. */
  predicate Separator(isWord: char -> bool, c: char) {
    c != '#' && !isWord(c)
  }

  /** A tag at the front of text ending in a separator ends inside that text, whatever follows. */
  lemma TagAtFront(isWord: char -> bool, a: string, b: string)
    requires |a| >= 2 && a[0] == '#' && isWord(a[1]) && Separator(isWord, a[|a| - 1])
    ensures var n := WordRun(isWord, a[1..]);
      && n < |a| - 1
      && Hashtags(isWord, a + b) == [a[1..1 + n]] + Hashtags(isWord, a[1 + n..] + b)
  {
    var s := a + b;
    var n := WordRun(isWord, a[1..]);
    assert a[1..][|a| - 2] == a[|a| - 1];
    assert s[1..][n] == a[1..][n];
    WordRunUnique(isWord, s[1..], n);
    assert s[1..1 + n] == a[1..1 + n];
    assert s[1 + n..] == a[1 + n..] + b;
  }

  /** Text that ends in a separator cannot run into what follows it, so its tags come first. */
  lemma {:induction false} HashtagsAppend(isWord: char -> bool, a: string, b: string)
    requires |a| > 0 && Separator(isWord, a[|a| - 1])
    ensures Hashtags(isWord, a + b) == Hashtags(isWord, a) + Hashtags(isWord, b)
    decreases |a|, 1
  {
    var s := a + b;
    if |a| == 1 {
      assert s[0] != '#';
      if |s| >= 2 {
        assert s[1..] == b;
      }
    } else if a[0] == '#' && isWord(a[1]) {
      HashtagsAppendAtTag(isWord, a, b);
    } else {
      assert s[1..] == a[1..] + b;
      assert a[1..][|a| - 2] == a[|a| - 1];
      HashtagsAppend(isWord, a[1..], b);
    }
  }

  /** `HashtagsAppend` when `a` starts with a tag. */
  lemma {:induction false} HashtagsAppendAtTag(isWord: char -> bool, a: string, b: string)
    requires |a| >= 2 && a[0] == '#' && isWord(a[1]) && Separator(isWord, a[|a| - 1])
    ensures Hashtags(isWord, a + b) == Hashtags(isWord, a) + Hashtags(isWord, b)
    decreases |a|, 0
  {
    var n := WordRun(isWord, a[1..]);
    TagAtFront(isWord, a, b);
    var rest := a[1 + n..];
    assert rest[|rest| - 1] == a[|a| - 1];
    HashtagsAppend(isWord, rest, b);
  }

  /** Skipping a leading character that is not `#` does not change the tags. */
  lemma SkipNonHash(isWord: char -> bool, c: char, s: string)
    requires c != '#'
    ensures Hashtags(isWord, [c] + s) == Hashtags(isWord, s)
  {
    if |s| >= 1 {
      assert ([c] + s)[1..] == s;
    }
  }

  /** `#tag` alone yields exactly that tag. */
  lemma SingleTag(isWord: char -> bool, t: string)
    requires IsTag(isWord, t)
    ensures Hashtags(isWord, "#" + t) == [t]
  {
    var s := "#" + t;
    assert s[1..] == t;
    WordRunUnique(isWord, t, |t|);
    assert s[1..1 + |t|] == t;
    assert s[1 + |t|..] == [];
  }

  /** The rendered tag list: `", ".join(['#' + tag for tag in tags])`. */
  function TagList(tags: seq<string>): string {
    Join(", ", PrefixEach("#", tags))
  }

  /** Reading the tags back out of a rendered tag list gives the tags, in order. */
  lemma {:induction false} TagListRoundTrip(isWord: char -> bool, tags: seq<string>)
    requires !isWord(',')
    requires forall k :: 0 <= k < |tags| ==> IsTag(isWord, tags[k])
    ensures Hashtags(isWord, TagList(tags)) == tags
  {
    if |tags| == 1 {
      assert TagList(tags) == "#" + tags[0];
      SingleTag(isWord, tags[0]);
    } else if |tags| > 1 {
      var head := "#" + tags[0] + ",";
      var rest := TagList(tags[1..]);
      assert PrefixEach("#", tags)[1..] == PrefixEach("#", tags[1..]);
      assert TagList(tags) == head + (" " + rest);
      assert IsTag(isWord, tags[0]);
      assert Hashtags(isWord, head) == [tags[0]] by {
        assert head[1..] == tags[0] + ",";
        WordRunUnique(isWord, head[1..], |tags[0]|);
        assert head[1..][..|tags[0]|] == tags[0];
        assert head[1 + |tags[0]|..] == ",";
      }
      HashtagsAppend(isWord, head, " " + rest);
      SkipNonHash(isWord, ' ', rest);
      TagListRoundTrip(isWord, tags[1..]);
    }
  }

  /** Text with no `#` in front of a tag list does not change what is read back. */
  lemma LabelledTagList(isWord: char -> bool, lead: string, tags: seq<string>)
    requires !isWord(',')
    requires |lead| > 0 && '#' !in lead && Separator(isWord, lead[|lead| - 1])
    requires forall k :: 0 <= k < |tags| ==> IsTag(isWord, tags[k])
    ensures Hashtags(isWord, lead + TagList(tags)) == tags
  {
    HashtagsAppend(isWord, lead, TagList(tags));
    NoHashNoTags(isWord, lead);
    TagListRoundTrip(isWord, tags);
  }

  // ---------------------------------------------------------------------------
  // sanitize_filename: `re.sub(r'[<>:"/\\|?*]', '', filename)`
  // ---------------------------------------------------------------------------

  /** The characters a filename may not contain. */
  predicate Illegal(c: char) {
    c in "<>:\"/\\|?*"
  }

  function SanitizeFilename(name: string): (r: string)
    ensures |r| <= |name|
    ensures forall c :: c in r <==> c in name && !Illegal(c)
  {
    if |name| == 0 then []
    else
      assert name == [name[0]] + name[1..];
      (if Illegal(name[0]) then [] else [name[0]]) + SanitizeFilename(name[1..])
  }

  /** Sanitising works character by character: it distributes over concatenation. */
  lemma {:induction false} SanitizeAppend(a: string, b: string)
    ensures SanitizeFilename(a + b) == SanitizeFilename(a) + SanitizeFilename(b)
  {
    if |a| > 0 {
      assert (a + b)[1..] == a[1..] + b;
      SanitizeAppend(a[1..], b);
    } else {
      assert a + b == b;
    }
  }

  /** A name with no illegal character comes back unchanged. */
  lemma {:induction false} SanitizeKeepsLegal(name: string)
    requires forall c :: c in name ==> !Illegal(c)
    ensures SanitizeFilename(name) == name
  {
    if |name| > 0 {
      assert name[0] in name;
      assert forall c :: c in name[1..] ==> c in name;
      SanitizeKeepsLegal(name[1..]);
      assert name == [name[0]] + name[1..];
    }
  }

  /** Sanitising twice is sanitising once. */
  lemma SanitizeIdempotent(name: string)
    ensures SanitizeFilename(SanitizeFilename(name)) == SanitizeFilename(name)
  {
    SanitizeKeepsLegal(SanitizeFilename(name));
  }

  // ---------------------------------------------------------------------------
  // format_message_content
  // ---------------------------------------------------------------------------

  /**
   * The elements of `s` without repeats, each at its first occurrence. The
   * source's `list(set(...))` has no defined order; this is one of its orders.
   */
  function Dedup<T(==,!new)>(s: seq<T>): (r: seq<T>)
    ensures NoDup(r)
    ensures |r| <= |s|
    ensures forall x :: x in r <==> x in s
  {
    if |s| == 0 then []
    else
      var d := Dedup(s[..|s| - 1]);
      assert s == s[..|s| - 1] + [s[|s| - 1]];
      if s[|s| - 1] in d then d else d + [s[|s| - 1]]
  }

  /** A diary entry and its tags. */
  datatype Entry = Entry(content: string, tags: seq<string>)

  /** The first line of a diary entry. */
  function Heading(time: string): string {
    "## " + time + "\n\n"
  }

  /** The label in front of the tag list. */
  const TagLabel: string := "标签: "

  /**
   * `format_message_content(message, hashtags)` at clock reading `time`
   * (already rendered as `%H:%M:%S`).
   */
  function FormatMessageContent(isWord: char -> bool, message: string, hashtags: seq<string>, time: string): (e: Entry)
    ensures NoDup(e.tags)
    ensures forall t :: t in e.tags <==> t in hashtags || t in Hashtags(isWord, message)
  {
    var tags := Dedup(hashtags + Hashtags(isWord, message));
    var body := Heading(time) + message + "\n\n";
    Entry(if |tags| > 0 then body + TagLabel + TagList(tags) + "\n" else body, tags)
  }

  /** The entry starts with the heading and the message, and the tag line follows exactly when there are tags. */
  lemma MessageContentLayout(isWord: char -> bool, message: string, hashtags: seq<string>, time: string)
    ensures var e := FormatMessageContent(isWord, message, hashtags, time);
      var body := Heading(time) + message + "\n\n";
      && StartsWith(e.content, body)
      && (|e.tags| == 0 <==> e.content == body)
      && (|e.tags| > 0 ==> e.content[|body|..] == TagLabel + TagList(e.tags) + "\n")
  {
  }

  /** A message without tags and without extra tags gives exactly heading and message. */
  lemma UntaggedMessage(isWord: char -> bool, message: string, time: string)
    requires '#' !in message
    ensures FormatMessageContent(isWord, message, [], time) == Entry(Heading(time) + message + "\n\n", [])
  {
    NoHashNoTags(isWord, message);
  }

  /** The tags written into the entry are read back by the same extraction, when they are genuine tags. */
  lemma MessageTagsReadBack(isWord: char -> bool, message: string, hashtags: seq<string>, time: string)
    requires !isWord(',') && !isWord(' ')
    requires forall k :: 0 <= k < |hashtags| ==> IsTag(isWord, hashtags[k])
    ensures var e := FormatMessageContent(isWord, message, hashtags, time);
      |e.tags| > 0 ==> Hashtags(isWord, TagLabel + TagList(e.tags)) == e.tags
  {
    var e := FormatMessageContent(isWord, message, hashtags, time);
    forall k | 0 <= k < |e.tags|
      ensures IsTag(isWord, e.tags[k])
    {
      assert e.tags[k] in e.tags;
      if e.tags[k] in hashtags {
        var j :| 0 <= j < |hashtags| && hashtags[j] == e.tags[k];
      } else {
        var j :| 0 <= j < |Hashtags(isWord, message)| && Hashtags(isWord, message)[j] == e.tags[k];
      }
    }
    if |e.tags| > 0 {
      assert TagLabel[|TagLabel| - 1] == ' ';
      LabelledTagList(isWord, TagLabel, e.tags);
    }
  }

  // ---------------------------------------------------------------------------
  // format_diary_date / format_diary_title
  // ---------------------------------------------------------------------------

  /** A calendar date as `datetime` holds it. */
  datatype Date = Date(year: nat, month: nat, day: nat)

  predicate ValidDate(d: Date) {
    1 <= d.year <= 9999 && 1 <= d.month <= 12 && 1 <= d.day <= 31
  }

  function Pad2(n: nat): (r: string)
    requires n < 100
    ensures |r| == 2
  {
    [DigitChar(n / 10), DigitChar(n % 10)]
  }

  function Pad4(n: nat): (r: string)
    requires n < 10000
    ensures |r| == 4
  {
    Pad2(n / 100) + Pad2(n % 100)
  }

  /** `strftime("%Y-%m-%d")`. */
  function FormatDiaryDate(d: Date): (r: string)
    requires ValidDate(d)
    ensures |r| == 10 && r[4] == '-' && r[7] == '-'
    ensures forall i :: 0 <= i < 10 && i != 4 && i != 7 ==> '0' <= r[i] <= '9'
  {
    Pad4(d.year) + "-" + Pad2(d.month) + "-" + Pad2(d.day)
  }

  const TitlePrefix: string := "日记 - "

  /** `format_diary_title`. */
  function FormatDiaryTitle(d: Date): (r: string)
    requires ValidDate(d)
    ensures StartsWith(r, TitlePrefix) && |r| == |TitlePrefix| + 10
  {
    TitlePrefix + FormatDiaryDate(d)
  }

  /** The value of a run of decimal digits. */
  function DecimalValue(s: string): nat
    requires forall i :: 0 <= i < |s| ==> '0' <= s[i] <= '9'
  {
    if |s| == 0 then 0 else 10 * DecimalValue(s[..|s| - 1]) + DigitValue(s[|s| - 1])
  }

  predicate AllDigits(s: string) {
    forall i :: 0 <= i < |s| ==> '0' <= s[i] <= '9'
  }

  /** Reads a `YYYY-MM-DD` string back into a date. */
  function ParseDiaryDate(s: string): Option<Date> {
    if |s| == 10 && s[4] == '-' && s[7] == '-' && AllDigits(s[..4]) && AllDigits(s[5..7]) && AllDigits(s[8..])
    then Some(Date(DecimalValue(s[..4]), DecimalValue(s[5..7]), DecimalValue(s[8..])))
    else None
  }

  lemma DigitRoundTrip(d: nat)
    requires d < 10
    ensures DigitValue(DigitChar(d)) == d
  {
  }

  lemma Pad2RoundTrip(n: nat)
    requires n < 100
    ensures AllDigits(Pad2(n)) && DecimalValue(Pad2(n)) == n
  {
    var p := Pad2(n);
    DigitRoundTrip(n / 10);
    DigitRoundTrip(n % 10);
    assert p[..1] == [DigitChar(n / 10)];
    assert DecimalValue(p[..1]) == n / 10 by {
      assert p[..1][..0] == [];
    }
  }

  /** Appending two digits multiplies the value so far by 100. */
  lemma DecimalAppend2(p: string, q: string)
    requires AllDigits(p) && AllDigits(q) && |q| == 2
    ensures AllDigits(p + q) && DecimalValue(p + q) == 100 * DecimalValue(p) + DecimalValue(q)
  {
    var s := p + q;
    var t := p + q[..1];
    assert s[..|s| - 1] == t;
    assert t[..|t| - 1] == p;
    assert q[..1][..0] == [];
    var x, d0, d1 := DecimalValue(p), DigitValue(q[0]), DigitValue(q[1]);
    assert DecimalValue(t) == 10 * x + d0;
    assert DecimalValue(q[..1]) == d0 by {
      assert q[..1][0] == q[0];
    }
    assert DecimalValue(q) == 10 * d0 + d1;
    assert DecimalValue(s) == 10 * (10 * x + d0) + d1;
  }

  lemma Pad4RoundTrip(n: nat)
    requires n < 10000
    ensures AllDigits(Pad4(n)) && DecimalValue(Pad4(n)) == n
  {
    Pad2RoundTrip(n / 100);
    Pad2RoundTrip(n % 100);
    DecimalAppend2(Pad2(n / 100), Pad2(n % 100));
  }

  /** The date written into a diary title is read back unchanged. */
  lemma DiaryDateRoundTrip(d: Date)
    requires ValidDate(d)
    ensures ParseDiaryDate(FormatDiaryDate(d)) == Some(d)
  {
    var s := FormatDiaryDate(d);
    Pad4RoundTrip(d.year);
    Pad2RoundTrip(d.month);
    Pad2RoundTrip(d.day);
    assert s[..4] == Pad4(d.year);
    assert s[5..7] == Pad2(d.month);
    assert s[8..] == Pad2(d.day);
  }

  /** Two different dates never share a diary title. */
  lemma DiaryTitleInjective(d1: Date, d2: Date)
    requires ValidDate(d1) && ValidDate(d2) && FormatDiaryTitle(d1) == FormatDiaryTitle(d2)
    ensures d1 == d2
  {
    assert FormatDiaryDate(d1) == FormatDiaryTitle(d1)[|TitlePrefix|..];
    assert FormatDiaryDate(d2) == FormatDiaryTitle(d2)[|TitlePrefix|..];
    DiaryDateRoundTrip(d1);
    DiaryDateRoundTrip(d2);
  }
}
