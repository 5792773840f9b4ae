# JacksonException, modelled in Dafny

A model of `com.fasterxml.jackson.core.JacksonException`, the base class of
Jackson's checked exceptions. An exception carries an original message, an
optional root cause, and a mutable location field `_location`. That field is
unset (null), the `JsonLocation.NA` sentinel, or a real location.
`clearLocation()` redacts the location in place and returns the same object.
`getMessage()` composes the display message on every call: the original
message (or `"N/A"` when it is null), then the subclass suffix, then
`"\n at "` and the location's own text.

Files:

- `wrappers.dfy` (module `Wrappers`): `Option`, whose `None` stands for a Java null.
- `messages.dfy` (module `Messages`): the `Location` datatype, the pure
  specification `Compose` of the composed message (built from `BaseMessage`,
  the "N/A" substitution, `SuffixText` and `LocationPart`), and lemmas about it
  (layout, fast path, effect of redaction, recoverability of the location text).
- `jackson_exception.dfy` (module `Exceptions`): the class
  `JacksonException`, with its three constructors, `ClearLocation`, the
  accessors, `GetMessage` (built step by step as the string builder does, and
  proved equal to `Compose`), `ToString`, and a client `RedactionScenario`.

Two points where the code as written differs from what one might expect:

- `getLocation()` returns the raw field. It is null after `clearLocation()`
  and after the one-argument constructors, although its comment says "never null".
- `getMessage()` tests `loc != null`, not `loc != NA`. A location equal to
  `JsonLocation.NA` is therefore still rendered as `"\n at "` followed by
  its text. Only a null location suppresses the location part.

## Model

| member | source | states |
|---|---|---|
| Messages.LocationPart | src/main/java/com/fasterxml/jackson/core/JacksonException.java:116-120 | the location part is empty exactly when the location is null; otherwise it starts with the newline and " at " |
| Messages.Compose | src/main/java/com/fasterxml/jackson/core/JacksonException.java:102-124 | the composed message starts with its base: the original message, or "N/A" when that is null (`BaseMessage`, lines 103-106); the suffix (`SuffixText`, lines 113-115) and the location part follow; with a null location and a null suffix it is exactly that base message |
| Messages.Layout | src/main/java/com/fasterxml/jackson/core/JacksonException.java:111-121 | the definition of Compose stated position by position: the base, then the suffix (or nothing), then the location part, so the suffix comes before the location text |
| Messages.MessageWithoutLocation | src/main/java/com/fasterxml/jackson/core/JacksonException.java:110-123 | with a null location the message is base + suffix, and it does not depend on how locations are rendered |
| Messages.MessageWithLocation | src/main/java/com/fasterxml/jackson/core/JacksonException.java:116-121 | with any non-null location, NA included, the message is the location-free message followed by "\n at " and the location text |
| Messages.ClearingChangesMessage | src/main/java/com/fasterxml/jackson/core/JacksonException.java:36-39 | removing a non-null location (even NA) always changes the composed message |
| Messages.LocationTextRecoverable | src/main/java/com/fasterxml/jackson/core/JacksonException.java:111-121 | two messages that differ only in their non-null location are equal exactly when the locations render to the same text |
| Exceptions.JacksonException.WithMessage | src/main/java/com/fasterxml/jackson/core/JacksonException.java:18-20 | stores the message; location and cause are unset |
| Exceptions.JacksonException.WithCause | src/main/java/com/fasterxml/jackson/core/JacksonException.java:22-24 | the message is the cause's description, or null without a cause; location unset |
| Exceptions.JacksonException.WithLocation | src/main/java/com/fasterxml/jackson/core/JacksonException.java:26-29 | a null location is replaced by NA, any other is stored unchanged; the stored location is never null on this path |
| Exceptions.JacksonException.ClearLocation | src/main/java/com/fasterxml/jackson/core/JacksonException.java:36-39 | sets the location to null and returns the same object; only the location field may change, so a second call is a no-op |
| Exceptions.JacksonException.GetLocation | src/main/java/com/fasterxml/jackson/core/JacksonException.java:55 | returns the raw location field, null included |
| Exceptions.JacksonException.GetOriginalMessage | src/main/java/com/fasterxml/jackson/core/JacksonException.java:62 | returns the construction message undecorated, whatever the location or suffix |
| Exceptions.JacksonException.GetProcessor | src/main/java/com/fasterxml/jackson/core/JacksonException.java:78 | the base class returns null |
| Exceptions.JacksonException.GetMessageSuffix | src/main/java/com/fasterxml/jackson/core/JacksonException.java:91 | returns the suffix the concrete subclass supplies |
| Exceptions.JacksonException.GetMessage | src/main/java/com/fasterxml/jackson/core/JacksonException.java:102-124 | the message built by the code's branches equals Compose of the original message, the current location and the suffix |
| Exceptions.JacksonException.ToString | src/main/java/com/fasterxml/jackson/core/JacksonException.java:126 | the class name, then ": ", then exactly the composed message |
| Exceptions.RedactionScenario | src/main/java/com/fasterxml/jackson/core/JacksonException.java:26-39 | for an exception built with a location, the message after clearLocation() is base + suffix, the message before was that plus "\n at " and the location text, and clearing again changes nothing |

## Left out

- Java serialization (`serialVersionUID`): no behaviour.
- The text a `JsonLocation` writes for itself (`toString(StringBuilder)`): `JsonLocation` is not part of this model, so the rendering is the parameter `locText` of `Compose`, `GetMessage` and `ToString`. This assumes that `loc.toString(sb)` at JacksonException.java:119 only appends the location's text to the builder and returns that same builder; `ClearingChangesMessage` and `LocationTextRecoverable` rely on it.
- Real locations are opaque (`At(handle)`); their line, column and offset fields are not modelled.
- The cause chain beyond storing the cause: a cause is an opaque value whose `description` stands for the text `Throwable.toString()` returns, which `Throwable(Throwable)` uses as the message. `initCause`, stack traces and suppressed exceptions are not modelled.
- `getClass().getName()` reflection: the class name is a constant field set at construction.
- Subclass overrides: `getMessageSuffix()` is modelled as a constant field `messageSuffix` set at construction; covariant `getProcessor()` overrides are not modelled, only the base's null.
- Thread-safety of the mutable location field: the code does not address it.
