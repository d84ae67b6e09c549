/** `DataValidationException`: the error aggregator every service raises validation failures with. */
module Errors {
  import opened JavaText

  /** The exception message is the collected errors joined with ", ". */
  function MessageOf(errors: seq<string>): string
  {
    Join(errors, ", ")
  }

  /**
   * The message of a one-error list is that error, so the single-message
   * constructor and the list constructor agree on one error; on more errors
   * the message grows by ", " and the new error for each error added.
   */
  lemma MessageOfOne(e: string)
    ensures MessageOf([e]) == e
  {
    JoinSingleton(e, ", ");
  }

  lemma MessageOfSnoc(errors: seq<string>, e: string)
    requires |errors| > 0
    ensures MessageOf(errors + [e]) == MessageOf(errors) + ", " + e
  {
    JoinSnoc(errors, e, ", ");
  }

  /** Every collected error can be found in the message. */
  lemma MessageMentionsEach(errors: seq<string>, i: int)
    requires 0 <= i < |errors|
    ensures exists k :: OccursAt(MessageOf(errors), errors[i], k)
  {
    JoinContains(errors, ", ", i);
    var k :| OccursAt(Join(errors, ", "), errors[i], k);
    assert OccursAt(MessageOf(errors), errors[i], k);
  }

  class DataValidationException {
    /** `getErrors()`. */
    var errors: seq<string>
    /** `getMessage()`, fixed by the superclass constructor. */
    const message: string

    /** Both constructors leave the message equal to the errors joined with ", ". */
    ghost predicate Valid()
      reads this
    {
      message == MessageOf(errors)
    }

    /** `new DataValidationException(String message)`. */
    constructor Single(message: string)
      ensures Valid()
      ensures this.message == message && errors == [message]
    {
      this.message := message;
      new;
      errors := [];
      errors := errors + [message];
      MessageOfOne(message);
    }

    /** `new DataValidationException(List<String> errors)`. */
    constructor FromList(errors: seq<string>)
      ensures Valid()
      ensures this.errors == errors && message == MessageOf(errors)
    {
      message := MessageOf(errors);
      this.errors := errors;
    }

    /** `getErrors()`: the list the exception was built with, unchanged. */
    method GetErrors() returns (r: seq<string>)
      requires Valid()
      ensures r == errors && MessageOf(r) == message
    {
      r := errors;
    }
  }
}
