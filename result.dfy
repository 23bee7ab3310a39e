/** The service layer's Result value object (app/services/result.rb) and the
    ways the services turn validation messages into one error value. */
module ServiceResult {
  import opened Presence

  /** What a failed call carries: one message, a record's full validation
      messages, or a hash `{ error: message }`. */
  datatype ErrorValue =
    | Message(text: string)
    | Messages(items: seq<string>)
    | Keyed(error: string)

  /** A Result: the three fields are set once, at construction. */
  datatype Result<+D> = Result(success: bool, data: Option<D>, error: Option<ErrorValue>) {
    /** `success?` */
    predicate IsSuccess() {
      success
    }

    /** `failure?` */
    predicate IsFailure() {
      !success
    }
  }

  /** `Result.success(data = nil)` */
  function Success<D>(data: Option<D>): (r: Result<D>)
    ensures r.IsSuccess() && !r.IsFailure()
    ensures r.data == data && r.error == None
  {
    Result(true, data, None)
  }

  /** `Result.failure(error)` */
  function Failure<D>(e: ErrorValue): (r: Result<D>)
    ensures !r.IsSuccess() && r.IsFailure()
    ensures r.data == None && r.error == Some(e)
  {
    Result(false, None, Some(e))
  }

  /** `failure?` is the negation of `success?` for every Result, including
      ones built directly with `new`. */
  lemma FailureIsNotSuccess<D>(r: Result<D>)
    ensures r.IsFailure() <==> !r.IsSuccess()
  {
  }

  /** `Array#join(sep)` */
  function Join(items: seq<string>, sep: string): (s: string)
    ensures items == [] ==> s == []
    ensures |items| == 1 ==> s == items[0]
  {
    if items == [] then []
    else if |items| == 1 then items[0]
    else items[0] + sep + Join(items[1..], sep)
  }

  /** Joining two non-empty lists is joining each and putting one separator
      between them. */
  lemma {:induction false} JoinConcat(a: seq<string>, b: seq<string>, sep: string)
    requires a != [] && b != []
    ensures Join(a + b, sep) == Join(a, sep) + sep + Join(b, sep)
    decreases |a|
  {
    if |a| == 1 {
      assert a + b == [a[0]] + b;
    } else {
      assert (a + b)[1..] == a[1..] + b;
      JoinConcat(a[1..], b, sep);
    }
  }

  /** Each message is followed by the separator and then by the join of the
      rest. */
  lemma {:induction false} JoinCons(x: string, rest: seq<string>, sep: string)
    requires rest != []
    ensures Join([x] + rest, sep) == x + sep + Join(rest, sep)
  {
    JoinConcat([x], rest, sep);
  }

  /** ActiveSupport's `Array#to_sentence` with its default connectors. */
  function ToSentence(items: seq<string>): (s: string)
    ensures items == [] ==> s == []
    ensures |items| == 1 ==> s == items[0]
    ensures |items| == 2 ==> s == items[0] + " and " + items[1]
  {
    if |items| <= 1 then Join(items, ", ")
    else if |items| == 2 then items[0] + " and " + items[1]
    else Join(items[..|items| - 1], ", ") + ", and " + items[|items| - 1]
  }

  /** With three or more messages the sentence is the `", "` join with its
      last separator widened to `", and "`. */
  lemma {:induction false} SentenceWidensLastSeparator(items: seq<string>)
    requires |items| >= 3
    ensures var n := |items|;
      Join(items, ", ") == Join(items[..n - 1], ", ") + ", " + items[n - 1] &&
      ToSentence(items) == Join(items[..n - 1], ", ") + ", and " + items[n - 1]
  {
    var n := |items|;
    assert items == items[..n - 1] + [items[n - 1]];
    JoinConcat(items[..n - 1], [items[n - 1]], ", ");
  }

  /** Three messages read "a, b, and c". */
  lemma ThreeMessageSentence(a: string, b: string, c: string)
    ensures ToSentence([a, b, c]) == a + ", " + b + ", and " + c
  {
    assert [a, b, c][..2] == [a, b];
    JoinCons(a, [b], ", ");
  }
}
