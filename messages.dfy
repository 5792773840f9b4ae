/**
 * How a Jackson exception composes its display message from the original
 * message, the subclass-supplied suffix and the location it carries.
 *
 * The text a location writes for itself (`JsonLocation.toString(StringBuilder)`)
 * is not part of this model: every function that needs it takes it as the
 * parameter `locText`, so nothing below depends on how a location looks.
 */
module Messages {
  import opened Wrappers

  /** A stream position: the `JsonLocation.NA` sentinel, or a real location
      (`handle` tells real locations apart; their fields are not modelled). */
  datatype Location = NA | At(handle: nat)

  /** Stands in for a null original message. */
  const Unavailable: string := "N/A"

  /** What is written between the message and the location text. */
  const LocationLead: string := "\n at "

  /** The original message, or "N/A" when it is null. */
  function BaseMessage(msg: Option<string>): string {
    msg.GetOr(Unavailable)
  }

  /** The subclass suffix, or nothing when it is null. */
  function SuffixText(suffix: Option<string>): string {
    suffix.GetOr("")
  }

  /** The location part of the message: nothing when the location is null,
      otherwise the lead followed by the location's own text. */
  function LocationPart(loc: Option<Location>, locText: Location -> string): (r: string)
    ensures loc.None? <==> r == []
    ensures loc.Some? ==> |r| >= |LocationLead| && r[..|LocationLead|] == LocationLead
  {
    match loc
    case None => ""
    case Some(l) => LocationLead + locText(l)
  }

  /**
   * The message `getMessage()` returns: base message, then the suffix, then
   * the location part.  Only a null location suppresses the location part;
   * `Some(NA)` is rendered like any other location.
   */
  function Compose(msg: Option<string>, loc: Option<Location>, suffix: Option<string>,
                   locText: Location -> string): (r: string)
    ensures |r| >= |BaseMessage(msg)| && r[..|BaseMessage(msg)|] == BaseMessage(msg)
    ensures loc.None? && suffix.None? ==> r == BaseMessage(msg)
  {
    BaseMessage(msg) + SuffixText(suffix) + LocationPart(loc, locText)
  }

  /** The definition of `Compose` stated position by position: base,
      suffix, location part, in that order, so the suffix always comes
      before the location text. */
  lemma Layout(msg: Option<string>, loc: Option<Location>, suffix: Option<string>,
               locText: Location -> string)
    ensures var r := Compose(msg, loc, suffix, locText);
            var b := |BaseMessage(msg)|;
            var e := b + |SuffixText(suffix)|;
            && e <= |r|
            && r[..b] == BaseMessage(msg)
            && r[b..e] == SuffixText(suffix)
            && r[e..] == LocationPart(loc, locText)
  {
  }

  /** With no location, the message is the base message followed by the
      suffix (or nothing), and no location rendering can show up in it. */
  lemma MessageWithoutLocation(msg: Option<string>, suffix: Option<string>,
                        locText: Location -> string, otherText: Location -> string)
    ensures Compose(msg, None, suffix, locText) == BaseMessage(msg) + SuffixText(suffix)
    ensures Compose(msg, None, suffix, locText) == Compose(msg, None, suffix, otherText)
  {
  }

  /** With a location, the message is the location-free message followed by
      the lead and the location text; this holds for `NA` as well. */
  lemma MessageWithLocation(msg: Option<string>, l: Location, suffix: Option<string>,
                     locText: Location -> string)
    ensures Compose(msg, Some(l), suffix, locText)
            == Compose(msg, None, suffix, locText) + LocationLead + locText(l)
  {
  }

  /** Clearing a location always changes the message, even when the
      location was the `NA` sentinel. */
  lemma ClearingChangesMessage(msg: Option<string>, l: Location, suffix: Option<string>,
                               locText: Location -> string)
    ensures Compose(msg, Some(l), suffix, locText) != Compose(msg, None, suffix, locText)
  {
  }

  /** Two messages that differ only in their (non-null) location agree
      exactly when the two locations render to the same text. */
  lemma {:induction false} LocationTextRecoverable(msg: Option<string>, l1: Location, l2: Location,
                                                   suffix: Option<string>, locText: Location -> string)
    ensures Compose(msg, Some(l1), suffix, locText) == Compose(msg, Some(l2), suffix, locText)
            <==> locText(l1) == locText(l2)
  {
    MessageWithLocation(msg, l1, suffix, locText);
    MessageWithLocation(msg, l2, suffix, locText);
    var head := Compose(msg, None, suffix, locText) + LocationLead;
    CancelPrefix(head, locText(l1), locText(l2));
  }

  /** A common prefix can be cancelled from both sides of an equation. */
  lemma CancelPrefix(head: string, t1: string, t2: string)
    ensures head + t1 == head + t2 <==> t1 == t2
  {
    if head + t1 == head + t2 {
      assert t1 == (head + t1)[|head|..];
      assert t2 == (head + t2)[|head|..];
    }
  }
}
