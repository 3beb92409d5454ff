/**
 * The calendar notification's text: a fixed header and one entry per
 * upcoming event, in the order the calendar returns them.
 */
module Schedule {
  /** The three fields of a calendar event that the summary shows. */
  datatype Event = Event(subject: string, start: string, end: string)

  const Header: string := "Your upcoming schedule:\n\n"

  /** One event's lines: the subject, then its start and end, then a blank line. */
  function Entry(e: Event): string {
    "- " + e.subject + "\n" + "  From: " + e.start + " To: " + e.end + "\n\n"
  }

  /** The entries of `events`, one after another. */
  function Entries(events: seq<Event>): string {
    if events == [] then "" else Entries(events[..|events| - 1]) + Entry(events[|events| - 1])
  }

  /** The summary `format_schedule` returns. */
  function ScheduleText(events: seq<Event>): string {
    Header + Entries(events)
  }

  /** Characters an entry adds beyond its three fields: "- ", "\n", "  From: ", " To: " and "\n\n". */
  const EntryFrame: nat := 18

  function EntryLength(e: Event): nat {
    |e.subject| + |e.start| + |e.end| + EntryFrame
  }

  function TotalEntryLength(events: seq<Event>): nat {
    if events == [] then 0 else TotalEntryLength(events[..|events| - 1]) + EntryLength(events[|events| - 1])
  }

  /** An entry is its three fields plus a fixed frame. */
  lemma EntryLengthIsFieldsPlusFrame(e: Event)
    ensures |Entry(e)| == EntryLength(e)
  {
  }

  /** Entries of two lists one after the other are the entries of the joined list. */
  lemma {:induction false} EntriesConcat(a: seq<Event>, b: seq<Event>)
    ensures Entries(a + b) == Entries(a) + Entries(b)
    decreases |b|
  {
    if b == [] {
      assert a + b == a;
    } else {
      var init := b[..|b| - 1];
      assert (a + b)[..|a + b| - 1] == a + init;
      assert (a + b)[|a + b| - 1] == b[|b| - 1];
      EntriesConcat(a, init);
      Regroup(Entries(a), Entries(init), Entry(b[|b| - 1]));
    }
  }

  lemma Regroup(x: string, y: string, z: string)
    ensures (x + y) + z == x + (y + z)
  {
  }

  /** No events: the header alone. */
  lemma NoEvents()
    ensures ScheduleText([]) == Header
  {
    assert Header + "" == Header;
  }

  /** More events add their entries at the end of the summary. */
  lemma MoreEventsAppend(a: seq<Event>, b: seq<Event>)
    ensures ScheduleText(a + b) == ScheduleText(a) + Entries(b)
  {
    EntriesConcat(a, b);
    Regroup(Header, Entries(a), Entries(b));
  }

  /** The entry of event `k` follows those of the earlier events and precedes those of the later ones. */
  lemma EntryInOrder(events: seq<Event>, k: nat)
    requires k < |events|
    ensures ScheduleText(events) == ScheduleText(events[..k]) + Entry(events[k]) + Entries(events[k + 1..])
  {
    assert events == events[..k] + ([events[k]] + events[k + 1..]);
    MoreEventsAppend(events[..k], [events[k]] + events[k + 1..]);
    EntriesConcat([events[k]], events[k + 1..]);
    assert Entries([events[k]]) == Entry(events[k]) by {
      assert [events[k]][..0] == [];
    }
    Regroup(ScheduleText(events[..k]), Entry(events[k]), Entries(events[k + 1..]));
  }

  /** The summary begins with the header and is as long as the header plus every entry. */
  lemma {:induction false} ScheduleLength(events: seq<Event>)
    ensures |ScheduleText(events)| == |Header| + TotalEntryLength(events)
    ensures ScheduleText(events)[..|Header|] == Header
    decreases |events|
  {
    if events != [] {
      ScheduleLength(events[..|events| - 1]);
      EntryLengthIsFieldsPlusFrame(events[|events| - 1]);
    }
  }

  /** `format_schedule`: the header, then each event's entry added in turn. */
  method FormatSchedule(events: seq<Event>) returns (summary: string)
    ensures summary == ScheduleText(events)
  {
    summary := AppendEntries(Header, events);
  }

  /** The accumulation loop of `format_schedule`, after whatever text `head` holds. */
  method AppendEntries(head: string, events: seq<Event>) returns (summary: string)
    ensures summary == head + Entries(events)
  {
    summary := head;
    for i := 0 to |events|
      invariant summary == head + Entries(events[..i])
    {
      assert events[..i + 1][..i] == events[..i];
      Regroup(head, Entries(events[..i]), Entry(events[i]));
      summary := summary + Entry(events[i]);
    }
    assert events[..|events|] == events;
  }
}
