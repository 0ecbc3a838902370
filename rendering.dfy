/** The reminder mail for one recipient's group (server/index.js, lines 91-101): a
    bullet line per record in the plain-text body, a list item per record in the HTML
    body, the slot in the subject and the heading. */
module Rendering {
  import opened Medication
  import opened Text

  /** The fields of the `mailOptions` object handed to the transport. */
  datatype Mail = Mail(from: string, to: string, subject: string, text: string, html: string)

  /** The first line of the plain-text body. */
  const Header := "Please take the following medication(s):"

  /** What the plain-text body starts with: the header line and an empty line. */
  const TextPrefix := Header + "\n\n"

  const SubjectPrefix := "\U{23F0} Medication Reminder - "

  /** `"MediCheck Reminder" <sender>`, where `sender` is the account's address. */
  function From(sender: string): string {
    "\"MediCheck Reminder\" <" + sender + ">"
  }

  function Subject(slot: string): string {
    SubjectPrefix + slot
  }

  /** The plain-text line of a record: a bullet, the medicine and the dosage in parentheses. */
  function Line(m: Record): string {
    "\U{2022} " + m.medicine + " (" + m.dosage + ")"
  }

  /** `meds.map(...)`: one line per record, in group order. */
  function Lines(group: seq<Record>): (r: seq<string>)
    ensures |r| == |group|
  {
    if group == [] then [] else [Line(group[0])] + Lines(group[1..])
  }

  function PlainText(group: seq<Record>): string {
    TextPrefix + Join(Lines(group), "\n")
  }

  const ItemTag := "<li>"
  const ItemClose := "</li>"

  /** The list item of a record. */
  function Item(m: Record): string {
    ItemTag + m.medicine + " (" + m.dosage + ")" + ItemClose
  }

  /** `meds.map(...).join("")`: the list items one after another. */
  function Items(group: seq<Record>): string {
    if group == [] then "" else Item(group[0]) + Items(group[1..])
  }

  const HeadingOpen := "<h3>Your "
  const HeadingWords := " Medication Reminder"
  const HeadingEnd := "</h3>"
  const ListOpen := "<ul>"
  const ListClose := "</ul>"
  const HeadingTags := HeadingEnd + ListOpen
  const HeadingClose := HeadingWords + HeadingTags

  function Html(slot: string, group: seq<Record>): string {
    HeadingOpen + slot + HeadingClose + Items(group) + ListClose
  }

  /** The mail for the group of `email` in the reminder firing for `slot`. */
  function ComposeMail(sender: string, slot: string, email: string, group: seq<Record>): Mail {
    Mail(From(sender), email, Subject(slot), PlainText(group), Html(slot, group))
  }

  // ---------------------------------------------------------------------------
  // The plain-text body.

  /** The line of the k-th record is the k-th line. */
  lemma {:induction false} LinesAt(group: seq<Record>, k: nat)
    requires k < |group|
    ensures Lines(group)[k] == Line(group[k])
  {
    if k > 0 {
      LinesAt(group[1..], k - 1);
    }
  }

  /** A line holds a line break only if its medicine or dosage does. */
  lemma SingleLine(m: Record)
    requires '\n' !in m.medicine && '\n' !in m.dosage
    ensures '\n' !in Line(m)
  {
  }

  lemma LinesWithoutBreak(group: seq<Record>)
    requires forall k :: 0 <= k < |group| ==> '\n' !in group[k].medicine && '\n' !in group[k].dosage
    ensures forall k :: 0 <= k < |Lines(group)| ==> '\n' !in Lines(group)[k]
  {
    forall k | 0 <= k < |group|
      ensures '\n' !in Lines(group)[k]
    {
      LinesAt(group, k);
      SingleLine(group[k]);
    }
  }

  /** When no medicine or dosage of a non-empty group holds a line break, the plain-text
      body is the fixed prefix (the header line and an empty line) followed by text that
      reads back, line by line, as the group's lines: one per record, in group order. */
  lemma PlainTextLines(group: seq<Record>)
    requires |group| > 0
    requires forall k :: 0 <= k < |group| ==> '\n' !in group[k].medicine && '\n' !in group[k].dosage
    ensures |TextPrefix| <= |PlainText(group)| && PlainText(group)[..|TextPrefix|] == TextPrefix
    ensures Split(PlainText(group)[|TextPrefix|..], '\n') == Lines(group)
  {
    LinesWithoutBreak(group);
    SplitJoin(Lines(group), '\n');
    assert PlainText(group)[|TextPrefix|..] == Join(Lines(group), "\n");
  }

  /** So the text after the prefix has exactly one line per record, and its line k is the
      line of the k-th record. */
  lemma PlainTextLineAt(group: seq<Record>, k: nat)
    requires k < |group|
    requires forall k :: 0 <= k < |group| ==> '\n' !in group[k].medicine && '\n' !in group[k].dosage
    ensures |Split(PlainText(group)[|TextPrefix|..], '\n')| == |group|
    ensures Split(PlainText(group)[|TextPrefix|..], '\n')[k] == Line(group[k])
  {
    PlainTextLines(group);
    LinesAt(group, k);
  }

  // ---------------------------------------------------------------------------
  // The HTML body.

  /** A string that ends in `b`, where `b` is long enough to hold every partial match,
      leaves a partial match at its end only if `b` does. */
  lemma NoOverlapSuffix(a: string, b: string, pat: string)
    requires |pat| > 0 && |b| >= |pat| - 1
    requires NoOverlapAtEnd(b, pat)
    ensures NoOverlapAtEnd(a + b, pat)
  {
    forall k | 0 < k < |pat| && k <= |a + b|
      ensures (a + b)[|a + b| - k..] != pat[..k]
    {
      assert (a + b)[|a + b| - k..] == b[|b| - k..];
    }
  }

  /** The item tag itself: one occurrence, and no partial one at its end. */
  lemma ItemTagCount()
    ensures Occurrences(ItemTag, ItemTag) == 1
    ensures NoOverlapAtEnd(ItemTag, ItemTag)
  {
    var t := ItemTag;
    assert t[..4] == t;
    assert t[1..][0] == 'l';
    assert t[|t| - 1..][0] == '>';
    assert t[|t| - 2..][0] == 'i';
    assert t[|t| - 3..][0] == 'l';
  }

  /** A tag other than `<li>` (a `<` not followed by `l`, and no further `<`) holds no
      `<li>` and leaves no partial one at its end. */
  lemma OtherTag(a: string)
    requires |a| >= 2 && a[0] == '<' && a[1] != 'l' && '<' !in a[1..]
    ensures Occurrences(a, ItemTag) == 0
    ensures NoOverlapAtEnd(a, ItemTag)
  {
    OccurrencesWithout(a[1..], ItemTag);
    if |a| >= 4 {
      assert a[..4][1] != ItemTag[1];
    }
    forall k | 0 < k < |ItemTag| && k <= |a|
      ensures a[|a| - k..] != ItemTag[..k]
    {
      if k < |a| {
        assert a[|a| - k..][0] == a[1..][|a| - k - 1];
      } else {
        assert a[|a| - k..][1] == a[1];
      }
    }
  }

  /** A list item holds exactly one `<li>` when its medicine and dosage hold no `<`. */
  lemma ItemCount(m: Record)
    requires '<' !in m.medicine && '<' !in m.dosage
    ensures Occurrences(Item(m), ItemTag) == 1
    ensures NoOverlapAtEnd(Item(m), ItemTag)
  {
    var x := m.medicine + " (" + m.dosage + ")";
    var close := ItemClose;
    assert '<' !in x;
    assert close[1..] == "/li>";
    OtherTag(close);
    NoOverlapWithout(x, ItemTag);
    OccurrencesWithout(x, ItemTag);
    OccurrencesConcat(x, close, ItemTag);
    NoOverlapSuffix(x, close, ItemTag);
    ItemTagCount();
    assert Item(m) == ItemTag + (x + close);
    OccurrencesConcat(ItemTag, x + close, ItemTag);
    NoOverlapSuffix(ItemTag, x + close, ItemTag);
  }

  /** The list items hold one `<li>` per record. */
  lemma {:induction false} ItemsCount(group: seq<Record>)
    requires forall k :: 0 <= k < |group| ==> '<' !in group[k].medicine && '<' !in group[k].dosage
    ensures Occurrences(Items(group), ItemTag) == |group|
    ensures group != [] ==> NoOverlapAtEnd(Items(group), ItemTag)
  {
    if group != [] {
      ItemCount(group[0]);
      ItemsCount(group[1..]);
      OccurrencesConcat(Item(group[0]), Items(group[1..]), ItemTag);
      if group[1..] != [] {
        assert |Item(group[1])| >= 3;
        assert Items(group[1..]) == Item(group[1]) + Items(group[2..]);
        NoOverlapSuffix(Item(group[0]), Items(group[1..]), ItemTag);
      } else {
        assert Items(group) == Item(group[0]) + "";
      }
    }
  }

  /** The opening of the heading holds no `<li>` and leaves no partial one at its end. */
  lemma HeadingOpenCount()
    ensures Occurrences(HeadingOpen, ItemTag) == 0
    ensures NoOverlapAtEnd(HeadingOpen, ItemTag)
  {
    assert HeadingOpen[1..] == "h3>Your ";
    OtherTag(HeadingOpen);
  }

  /** The words of the heading hold no `<` at all. */
  lemma HeadingWordsCount()
    ensures Occurrences(HeadingWords, ItemTag) == 0
    ensures NoOverlapAtEnd(HeadingWords, ItemTag)
  {
    assert '<' !in HeadingWords;
    OccurrencesWithout(HeadingWords, ItemTag);
    NoOverlapWithout(HeadingWords, ItemTag);
  }

  /** The closing of the heading and the opening of the list are other tags. */
  lemma HeadingTagsCount()
    ensures Occurrences(HeadingTags, ItemTag) == 0
    ensures NoOverlapAtEnd(HeadingTags, ItemTag)
  {
    var h3, ul := HeadingEnd, ListOpen;
    assert h3[1..] == "/h3>";
    assert ul[1..] == "ul>";
    OtherTag(h3);
    OtherTag(ul);
    OccurrencesConcat(h3, ul, ItemTag);
    NoOverlapSuffix(h3, ul, ItemTag);
  }

  /** Nor does the rest of the heading, up to the opening of the list. */
  lemma HeadingCloseCount()
    ensures Occurrences(HeadingClose, ItemTag) == 0
    ensures NoOverlapAtEnd(HeadingClose, ItemTag)
  {
    HeadingWordsCount();
    HeadingTagsCount();
    OccurrencesConcat(HeadingWords, HeadingTags, ItemTag);
    NoOverlapSuffix(HeadingWords, HeadingTags, ItemTag);
  }

  /** The opening of the heading followed by a slot without `<`. */
  lemma HeadingSlotCount(slot: string)
    requires '<' !in slot
    ensures Occurrences(HeadingOpen + slot, ItemTag) == 0
    ensures NoOverlapAtEnd(HeadingOpen + slot, ItemTag)
  {
    HeadingOpenCount();
    NoOverlapWithout(slot, ItemTag);
    OccurrencesWithout(slot, ItemTag);
    OccurrencesConcat(HeadingOpen, slot, ItemTag);
    NoOverlapJoin(HeadingOpen, slot, ItemTag);
  }

  /** The heading around the slot holds no `<li>` and leaves no partial one at its end. */
  lemma HeadingCount(slot: string)
    requires '<' !in slot
    ensures Occurrences(HeadingOpen + slot + HeadingClose, ItemTag) == 0
    ensures NoOverlapAtEnd(HeadingOpen + slot + HeadingClose, ItemTag)
  {
    HeadingSlotCount(slot);
    HeadingCloseCount();
    OccurrencesConcat(HeadingOpen + slot, HeadingClose, ItemTag);
    NoOverlapSuffix(HeadingOpen + slot, HeadingClose, ItemTag);
  }

  /** When neither the slot nor any medicine or dosage holds a `<`, the HTML body holds
      exactly one `<li>` per record of the group. */
  lemma HtmlItemCount(slot: string, group: seq<Record>)
    requires '<' !in slot
    requires forall k :: 0 <= k < |group| ==> '<' !in group[k].medicine && '<' !in group[k].dosage
    ensures Occurrences(Html(slot, group), ItemTag) == |group|
  {
    var head := HeadingOpen + slot + HeadingClose;
    HeadingCount(slot);
    ItemsCount(group);
    OccurrencesConcat(head, Items(group), ItemTag);
    if group != [] {
      assert |Items(group)| >= 3 by {
        assert Items(group) == Item(group[0]) + Items(group[1..]);
      }
      NoOverlapSuffix(head, Items(group), ItemTag);
    } else {
      assert head + Items(group) == head;
    }
    assert ListClose[1..] == "/ul>";
    OtherTag(ListClose);
    OccurrencesConcat(head + Items(group), ListClose, ItemTag);
  }
}
