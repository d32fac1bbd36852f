/**
 * The part of services/geminiService.ts that is not a foreign call: the payload taken
 * from the image's data URL and the normalisation of the parsed JSON response into a
 * `ReceiptData`, with JavaScript's `||` defaults (a present but zero number counts as
 * absent).
 */
module Extraction {
  import opened BillTypes

  /** The parsed JSON response; every field may be missing. */
  datatype ParsedResponse = ParsedResponse(
    items: Option<seq<ExtractedItem>>,
    subtotal: Option<real>,
    tax: Option<real>,
    total: Option<real>)

  /** JavaScript truthiness of an optional number: present and non-zero. */
  predicate Truthy(x: Option<real>)
  {
    x.Some? && x.value != 0.0
  }

  /** `x || 0`. */
  function OrZero(x: Option<real>): real
  {
    if Truthy(x) then x.value else 0.0
  }

  /** `items.reduce((acc, item) => acc + item.price, 0)`. */
  function PriceSum(items: seq<ExtractedItem>): real
    decreases |items|
  {
    if items == [] then 0.0 else PriceSum(items[..|items| - 1]) + items[|items| - 1].price
  }

  /** The return block of `parseReceipt` (services/geminiService.ts:51-56). */
  function Normalize(data: ParsedResponse): (r: ReceiptData)
    ensures r.items == if data.items.Some? then data.items.value else []
    ensures r.subtotal == if Truthy(data.subtotal) then data.subtotal.value else PriceSum(r.items)
    ensures r.tax == if data.tax.Some? then data.tax.value else 0.0
    ensures r.total == if data.total.Some? then data.total.value else 0.0
  {
    var items := if data.items.Some? then data.items.value else [];
    var reported := if data.items.Some? then Some(PriceSum(data.items.value)) else None;
    ReceiptData(
      items,
      if Truthy(data.subtotal) then data.subtotal.value else OrZero(reported),
      OrZero(data.tax),
      OrZero(data.total))
  }

  // ---------------------------------------------------------------------------
  // The data-URL payload, `base64Image.split(',')[1]` (services/geminiService.ts:16).

  /** `s.split(sep)`: the maximal runs of `s` free of `sep`, in order; `""` splits into `[""]`. */
  function Split(s: string, sep: char): (parts: seq<string>)
    ensures |parts| >= 1
    ensures |parts| == 1 <==> sep !in s
    ensures forall k :: 0 <= k < |parts| ==> sep !in parts[k]
    ensures Join(parts, sep) == s
    decreases |s|
  {
    if s == [] then [[]]
    else
      var rest := Split(s[1..], sep);
      if s[0] == sep then [[]] + rest
      else
        JoinOfExtendedHead(rest, s[0], sep);
        [[s[0]] + rest[0]] + rest[1..]
  }

  /** The inverse of `Split`: the parts with `sep` between consecutive ones. */
  function Join(parts: seq<string>, sep: char): string
    requires |parts| >= 1
    decreases |parts|
  {
    if |parts| == 1 then parts[0] else parts[0] + [sep] + Join(parts[1..], sep)
  }

  /** Joining after prefixing the first part prefixes the joined string. */
  lemma JoinOfExtendedHead(parts: seq<string>, c: char, sep: char)
    requires |parts| >= 1
    ensures Join([[c] + parts[0]] + parts[1..], sep) == [c] + Join(parts, sep)
  {
    var ps := [[c] + parts[0]] + parts[1..];
    assert ps[1..] == parts[1..];
  }

  /** The base64 payload of a data URL: the text after its first comma, up to the next one; none without a comma. */
  function ImagePayload(dataUrl: string): (r: Option<string>)
    ensures r.None? <==> ',' !in dataUrl
    ensures r.Some? ==> ',' !in r.value
  {
    var parts := Split(dataUrl, ',');
    if |parts| >= 2 then Some(parts[1]) else None
  }

  /** Splitting a string that starts with a character other than `sep`. */
  lemma SplitCons(c: char, tail: string, sep: char)
    requires c != sep
    ensures Split([c] + tail, sep) == [[c] + Split(tail, sep)[0]] + Split(tail, sep)[1..]
  {
    assert ([c] + tail)[1..] == tail;
  }

  /** Every split has a first part. */
  lemma SplitHasHead(s: string, sep: char)
    ensures Split(s, sep) == [Split(s, sep)[0]] + Split(s, sep)[1..]
  {
  }

  /** One step of `SplitAfterFreeHead`: a further non-`sep` character in front. */
  lemma SplitAfterFreeHeadStep(c: char, tail: string, rest: string, sep: char)
    requires c != sep
    requires Split(tail + rest, sep) == [tail + Split(rest, sep)[0]] + Split(rest, sep)[1..]
    ensures Split([c] + (tail + rest), sep) == [([c] + tail) + Split(rest, sep)[0]] + Split(rest, sep)[1..]
  {
    var q, r := Split(rest, sep), Split(tail + rest, sep);
    SplitCons(c, tail + rest, sep);
    var first := [c] + r[0];
    assert first == ([c] + tail) + q[0];
  }

  /** A `sep`-free head only lengthens the first part. */
  lemma {:induction false} SplitAfterFreeHead(head: string, rest: string, sep: char)
    requires sep !in head
    ensures Split(head + rest, sep) == [head + Split(rest, sep)[0]] + Split(rest, sep)[1..]
    decreases |head|
  {
    if head == [] {
      assert head + rest == rest && head + Split(rest, sep)[0] == Split(rest, sep)[0];
      SplitHasHead(rest, sep);
    } else {
      var c, tail := head[0], head[1..];
      assert head == [c] + tail && c in head;
      assert head + rest == [c] + (tail + rest);
      SplitAfterFreeHead(tail, rest, sep);
      SplitAfterFreeHeadStep(c, tail, rest, sep);
    }
  }

  /** What the payload is: for `header,payload` followed by nothing or by another comma, it is `payload`. */
  lemma PayloadOfDataUrl(header: string, payload: string, trailer: string)
    requires ',' !in header && ',' !in payload
    requires trailer == [] || trailer[0] == ','
    ensures ImagePayload(header + "," + payload + trailer) == Some(payload)
  {
    var afterComma := payload + trailer;
    var withComma := [','] + afterComma;
    assert header + "," + payload + trailer == header + withComma;
    SplitAfterFreeHead(header, withComma, ',');
    assert withComma[1..] == afterComma;
    assert Split(withComma, ',') == [[]] + Split(afterComma, ',');
    SplitAfterFreeHead(payload, trailer, ',');
    assert Split(header + withComma, ',')[1] == Split(afterComma, ',')[0];
    if trailer != [] {
      assert Split(trailer, ',') == [[]] + Split(trailer[1..], ',');
    }
    assert Split(afterComma, ',')[0] == payload;
  }
}
