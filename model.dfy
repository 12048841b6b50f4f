/**
 The values the orders pipeline works on: orders and their items as read from
 the orders API, the alerts it posts, the replies its HTTP calls receive and the
 diagnostic records it appends to the log file.
 */
module OrdersModel {

  datatype Option<+T> = None | Some(value: T)

  const INT32_MIN: int := -0x8000_0000
  const INT32_MAX: int := 0x7fff_ffff

  /** A C# `int`. */
  type Int32 = x: int | INT32_MIN <= x <= INT32_MAX

  /** `n + 1` on a C# `int` in the default unchecked context: two's-complement
      wrap-around, so the largest value goes to the smallest one. */
  function Increment(n: Int32): (r: Int32)
    ensures n < INT32_MAX ==> r == n + 1
    ensures n == INT32_MAX ==> r == INT32_MIN
  {
    (n + 1 - INT32_MIN) % 0x1_0000_0000 + INT32_MIN
  }

  /** One element of an order's `Items` array.
      `Entry` is a JSON object. A field is None when its key is absent.
      `status` and `description` hold the text the value renders to;
      `count` holds `deliveryNotification` read as a C# int, and is None when the
      key is absent or its value does not convert to an int.
      `NotAnObject` is any other JSON value (a number, a string, an array). */
  datatype Item =
    | Entry(status: Option<string>, description: Option<string>, count: Option<Int32>)
    | NotAnObject

  /** An order. `items` is None when the `Items` key is absent, null, or does not
      hold a JSON array; `id` is the text of `OrderId`, None when the key is absent. */
  datatype Order = Order(id: Option<string>, items: Option<seq<Item>>)

  /** The payload of one POST to the alert API: the order id, the item's
      description and the item's delivery-notification count as it was when the
      alert was built. */
  datatype Alert = Alert(orderId: string, description: Option<string>, count: Option<Int32>)

  /** How an HTTP call ends: a success status, another status, or an exception. */
  datatype Reply = Succeeded | Rejected | Faulted

  /** How the GET of the orders API ends: an exception (transport, or a body
      that does not parse as a JSON array), a non-success status, or a body that
      parsed to a list of orders. `FetchBody(None)` stands for the null result
      the code guards against after parsing; a body that parses as an array
      never produces it, so that branch is defensive. */
  datatype FetchReply = FetchFaulted | FetchRejected | FetchBody(json: Option<seq<Order>>)

  /** One record of the diagnostic log: its kind and the order id or item
      description it names. Timestamps and message text are not modelled. */
  datatype LogRecord =
    | AppStarted
    | AppEnded
    | ZeroOrdersFound
    | FetchFailed
    | ProcessFailed
    | StatusUnreadable
    | AlertSent(description: Option<string>)
    | AlertNotSent(description: Option<string>)
    | AlertFailed
    | OrderSent(orderId: Option<string>)
    | OrderNotSent(orderId: Option<string>)
    | UpdateFailed

  /** Concatenation is associative (a helper for the proofs about logs). */
  lemma AppendAssoc<T>(a: seq<T>, b: seq<T>, c: seq<T>)
    ensures a + (b + c) == a + b + c
  {
  }

  /** The pieces `f` gives for each of `xs`, concatenated in order. */
  function Concat<X, T>(xs: seq<X>, f: X -> seq<T>): seq<T> {
    if |xs| == 0 then [] else Concat(xs[..|xs| - 1], f) + f(xs[|xs| - 1])
  }

  /** Like Concat, but each piece is also given a running number: `start`
      plus the length of the `g`-pieces of the elements before it. */
  function ConcatNumbered<X, T, U>(xs: seq<X>, f: (X, nat) -> seq<T>, g: X -> seq<U>, start: nat): seq<T> {
    if |xs| == 0 then []
    else
      var init := xs[..|xs| - 1];
      ConcatNumbered(init, f, g, start) + f(xs[|xs| - 1], start + |Concat(init, g)|)
  }

  /** One more element appends its piece. */
  lemma ConcatStep<X, T>(xs: seq<X>, i: nat, f: X -> seq<T>)
    requires i < |xs|
    ensures Concat(xs[..i + 1], f) == Concat(xs[..i], f) + f(xs[i])
  {
    assert xs[..i + 1][..i] == xs[..i];
  }

  /** One more element appends its piece, numbered by the pieces before it. */
  lemma ConcatNumberedStep<X, T, U>(xs: seq<X>, i: nat, f: (X, nat) -> seq<T>, g: X -> seq<U>, start: nat, n: nat)
    requires i < |xs| && n == start + |Concat(xs[..i], g)|
    ensures ConcatNumbered(xs[..i + 1], f, g, start) == ConcatNumbered(xs[..i], f, g, start) + f(xs[i], n)
  {
    assert xs[..i + 1][..i] == xs[..i];
  }
}
