/**
 * The base class of Jackson's checked exceptions: an original message, a
 * cause, and a location that `clearLocation()` can remove in place.
 */
module Exceptions {
  import opened Wrappers
  import opened Messages

  /** A wrapped `Throwable`; `description` is what its `toString()` returns. */
  datatype Cause = Cause(description: string)

  /** The parser, generator or other processor behind an exception. */
  datatype Processor = Processor(handle: nat)

  class JacksonException {
    /** `_location`: `None` is a null field. */
    var location: Option<Location>
    /** The message handed to `super(...)`; never changed afterwards. */
    const originalMessage: Option<string>
    /** The root cause handed to `super(...)`. */
    const cause: Option<Cause>
    /** What the concrete subclass's `getMessageSuffix()` returns. */
    const messageSuffix: Option<string>
    /** What `getClass().getName()` returns for the concrete subclass. */
    const className: string

    /** `JacksonException(String msg)`: no location, no cause. */
    constructor WithMessage(className: string, messageSuffix: Option<string>, msg: Option<string>)
      ensures location == None && originalMessage == msg && cause == None
      ensures this.messageSuffix == messageSuffix && this.className == className
    {
      this.className := className;
      this.messageSuffix := messageSuffix;
      originalMessage := msg;
      cause := None;
      location := None;
    }

    /** `JacksonException(Throwable t)`: the message is the cause's own
        description (null when there is no cause); no location. */
    constructor WithCause(className: string, messageSuffix: Option<string>, t: Option<Cause>)
      ensures location == None && cause == t
      ensures t.None? ==> originalMessage == None
      ensures t.Some? ==> originalMessage == Some(t.value.description)
      ensures this.messageSuffix == messageSuffix && this.className == className
    {
      this.className := className;
      this.messageSuffix := messageSuffix;
      originalMessage := if t.Some? then Some(t.value.description) else None;
      cause := t;
      location := None;
    }

    /** `JacksonException(String msg, JsonLocation loc, Throwable rootCause)`:
        a null location is replaced by the `NA` sentinel, so the stored
        location is never null on this path. */
    constructor WithLocation(className: string, messageSuffix: Option<string>, msg: Option<string>,
                             loc: Option<Location>, rootCause: Option<Cause>)
      ensures location.Some?
      ensures loc.None? ==> location == Some(NA)
      ensures loc.Some? ==> location == loc
      ensures originalMessage == msg && cause == rootCause
      ensures this.messageSuffix == messageSuffix && this.className == className
    {
      this.className := className;
      this.messageSuffix := messageSuffix;
      originalMessage := msg;
      cause := rootCause;
      location := if loc.None? then Some(NA) else loc;
    }

    /** Removes the location and returns this same exception; nothing else
        changes, and a second call leaves the state as it is. */
    method ClearLocation() returns (self: JacksonException)
      modifies this`location
      ensures self == this
      ensures location == None
    {
      location := None;
      self := this;
    }

    /** The raw location field: null after `clearLocation()` and after the
        one-argument constructors. */
    function GetLocation(): (r: Option<Location>)
      reads this
      ensures r == location
    {
      location
    }

    /** The construction message, without any decoration. */
    function GetOriginalMessage(): (r: Option<string>)
      ensures r == originalMessage
    {
      originalMessage
    }

    /** The base class knows no processor. */
    function GetProcessor(): (r: Option<Processor>)
      ensures r.None?
    {
      None
    }

    /** The text appended after the message and before the location. */
    function GetMessageSuffix(): (r: Option<string>)
      ensures r == messageSuffix
    {
      messageSuffix
    }

    /** Builds the display message as a string builder would: only when a
        location or a suffix is present is anything appended. */
    method GetMessage(locText: Location -> string) returns (m: string)
      ensures m == Compose(originalMessage, location, messageSuffix, locText)
    {
      m := if GetOriginalMessage().None? then Unavailable else GetOriginalMessage().value;
      var loc := GetLocation();
      var suffix := GetMessageSuffix();
      if loc.Some? || suffix.Some? {
        var sb := m;
        if suffix.Some? {
          sb := sb + suffix.value;
        }
        if loc.Some? {
          sb := sb + ['\n'];
          sb := sb + " at ";
          sb := sb + locText(loc.value);
        }
        m := sb;
      }
    }

    /** The class name, ": ", then the display message. */
    method ToString(locText: Location -> string) returns (s: string)
      ensures |s| >= |className| + 2
      ensures s[..|className|] == className && s[|className|..|className| + 2] == ": "
      ensures s[|className| + 2..] == Compose(originalMessage, location, messageSuffix, locText)
    {
      var m := GetMessage(locText);
      s := className + ": " + m;
      assert s[|className| + 2..] == m;
    }
  }

  /**
   * An exception thrown with a location, asked for its message, redacted,
   * asked again, and redacted a second time: redaction drops exactly the
   * location part, and repeating it changes nothing.
   */
  method RedactionScenario(className: string, messageSuffix: Option<string>, msg: Option<string>,
                           l: Location, rootCause: Option<Cause>, locText: Location -> string)
    returns (before: string, after: string, again: string)
    ensures before == after + LocationLead + locText(l)
    ensures after == BaseMessage(msg) + SuffixText(messageSuffix)
    ensures again == after
  {
    var e := new JacksonException.WithLocation(className, messageSuffix, msg, Some(l), rootCause);
    before := e.GetMessage(locText);
    var same := e.ClearLocation();
    after := same.GetMessage(locText);
    MessageWithLocation(msg, l, messageSuffix, locText);
    var _ := same.ClearLocation();
    again := e.GetMessage(locText);
    assert e.GetOriginalMessage() == msg;
  }
}
