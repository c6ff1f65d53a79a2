/**
 * The console consumer's event formatter (`ConsoleConsumer._format_event`).
 * The consumer's print loop and its running flag are not part of this model.
 */
module Console {
  import opened Text
  import opened Models

  /** The separator printed under every event: forty dashes. */
  function Separator(): (s: string)
    ensures |s| == 40
    ensures forall i :: 0 <= i < |s| ==> s[i] == '-'
  {
    "----------------------------------------"
  }

  /** The bracketed tag: "UPDATED" exactly for updated events, "NEW" otherwise. */
  function Tag(e: StatusEvent): (tag: string)
    ensures tag == "UPDATED" <==> e.eventType == Updated
    ensures tag == "NEW" <==> e.eventType == New
  {
    match e.eventType
    case Updated => assert "UPDATED"[0] != "NEW"[0]; "UPDATED"
    case New => "NEW"
  }

  /** The status line: the message follows after one space, and only when it is non-empty. */
  function StatusLine(e: StatusEvent): (line: string)
    ensures e.message == [] ==> line == "Status: " + e.status
    ensures e.message != [] ==> line == "Status: " + e.status + " " + e.message
  {
    "Status: " + e.status + (if e.message != [] then " " + e.message else "")
  }

  /** `_format_event`: four lines, the last of them the separator. */
  function FormatEvent(e: StatusEvent): string {
    var heading := "[" + e.timestamp + "] [" + Tag(e) + "] Provider: " + e.provider + "\n";
    var productLine := "Product: " + e.product + "\n";
    heading + productLine + StatusLine(e) + ("\n" + Separator())
  }

  /**
   * Whatever the fields hold, the output opens with the heading line and
   * closes with a line break followed by the forty dashes.
   */
  lemma FormatEventEnds(e: StatusEvent)
    ensures StartsWith(FormatEvent(e), "[" + e.timestamp + "] [" + Tag(e) + "] Provider: " + e.provider + "\n")
    ensures EndsWith(FormatEvent(e), "\n" + Separator())
  {
    var heading := "[" + e.timestamp + "] [" + Tag(e) + "] Provider: " + e.provider + "\n";
    ConcatAffixes4(heading, "Product: " + e.product + "\n", StatusLine(e), "\n" + Separator());
  }

  /**
   * When no field holds a line break the output splits into exactly four
   * lines: the heading with timestamp, tag and provider, the product, the
   * status line, and forty dashes.
   */
  lemma FormatEventLines(e: StatusEvent)
    requires SingleLineFields(e)
    ensures Split(FormatEvent(e), '\n') ==
      ["[" + e.timestamp + "] [" + Tag(e) + "] Provider: " + e.provider,
       "Product: " + e.product,
       StatusLine(e),
       Separator()]
  {
    var l1 := "[" + e.timestamp + "] [" + Tag(e) + "] Provider: " + e.provider;
    var l2 := "Product: " + e.product;
    var l3 := StatusLine(e);
    var l4 := Separator();
    assert '\n' !in l1 by {
      var tag := Tag(e);
      assert '\n' !in tag by {
        assert tag == "UPDATED" || tag == "NEW";
      }
      assert '\n' !in "[" && '\n' !in "] [" && '\n' !in "] Provider: ";
    }
    assert '\n' !in l2 by {
      assert '\n' !in "Product: ";
    }
    assert '\n' !in l3 by {
      assert '\n' !in "Status: " && '\n' !in " ";
    }
    assert '\n' !in l4 by {
      assert forall i :: 0 <= i < |l4| ==> l4[i] == '-';
    }
    SplitFourLines(l1, l2, l3, l4, '\n');
  }
}
