/** Shared vocabulary of the octodns-yandex model: optional values, the
    errors the providers raise, the two shapes of paginated listings the
    Yandex APIs serve, and the two Python string operations the providers
    rely on (`in` between strings, and `str.replace`). */
module Common {

  datatype Option<+T> = None | Some(value: T)

  /** The exceptions raised by the core, one constructor per cause. */
  datatype Error =
    | UnknownRecordType(rtype: string)      // Yandex 360 decode: type not registered with octodns
    | UnsupportedRecordType(rtype: string)  // no codec for this type
    | MissingField(field: string)           // a wire entry lacks the field its type reads (KeyError)
    | MalformedValue(rtype: string)         // a value of the wrong shape for its type (AttributeError)
    | IndexOutOfRange                       // `zones[0]` / `data[0]` on an empty list
    | ZoneNotFound                          // Yandex 360 `_apply` on a domain no organisation owns
    | UnsupportedConfig(option: string)     // constructor option outside its allowed set

  datatype Result<+T> = Ok(value: T) | Err(error: Error)

  /** One answer of a cursor-paginated listing: its items and the cursor
      for the next request ("" when there is no next page). */
  datatype TokenPage<T> = TokenPage(items: seq<T>, nextPageToken: string)

  /** One answer of a page-number listing: its items and the total number
      of pages the backend reports with it. */
  datatype NumberedPage<T> = NumberedPage(items: seq<T>, pages: int)

  /** A cursor listing, given as the successive answers the backend gives,
      ends: some answer carries an empty cursor. */
  predicate TokenListingEnds<T>(answers: seq<TokenPage<T>>) {
    exists i | 0 <= i < |answers| :: answers[i].nextPageToken == ""
  }

  /** While every answer so far carried a cursor, a listing that ends has
      another answer to give. */
  lemma TokenListingGoesOn<T>(answers: seq<TokenPage<T>>, i: nat)
    requires TokenListingEnds(answers) && i <= |answers|
    requires forall k | 0 <= k < i :: answers[k].nextPageToken != ""
    ensures i < |answers|
  {
    var j :| 0 <= j < |answers| && answers[j].nextPageToken == "";
    assert i <= j;
  }

  /** All items a cursor listing yields: the items of every answer up to and
      including the first one whose cursor is empty. */
  function TokenItems<T>(answers: seq<TokenPage<T>>): seq<T>
    decreases |answers|
  {
    if answers == [] then []
    else if answers[0].nextPageToken == "" then answers[0].items
    else answers[0].items + TokenItems(answers[1..])
  }

  /** The concatenated items of a sequence of answers. */
  function ItemsOf<T>(answers: seq<TokenPage<T>>): seq<T>
    decreases |answers|
  {
    if answers == [] then [] else answers[0].items + ItemsOf(answers[1..])
  }

  /** A page-number listing that requests page k+1 as its k-th request
      stops after the first answer k whose reported page count is at most
      k + 1; it ends when some answer from `from` on is such an answer. */
  predicate NumberedListingEnds<T>(answers: seq<NumberedPage<T>>, from: nat) {
    exists k | from <= k < |answers| :: answers[k].pages <= k + 1
  }

  /** The items a page-number listing yields from its answer `from` on. */
  function NumberedItems<T>(answers: seq<NumberedPage<T>>, from: nat): seq<T>
    requires NumberedListingEnds(answers, from)
    decreases |answers| - from
  {
    if answers[from].pages <= from + 1 then answers[from].items
    else answers[from].items + NumberedItems(answers, from + 1)
  }

  /** Python's `needle in hay` for two strings: a substring test. */
  predicate Contains(hay: string, needle: string) {
    exists i | 0 <= i <= |hay| :: needle <= hay[i..]
  }

  /** Python's `s.replace(pat, rep)` for a non-empty pattern: a left to
      right scan that replaces non-overlapping occurrences. */
  function Replace(s: string, pat: string, rep: string): string
    requires |pat| > 0
    decreases |s|
  {
    if |s| < |pat| then s
    else if pat <= s then rep + Replace(s[|pat|..], pat, rep)
    else [s[0]] + Replace(s[1..], pat, rep)
  }

  /** Concatenating cursor answers served one after another: the items of
      answers that end at answer i are the items of the first i+1 answers. */
  lemma {:induction false} TokenItemsPrefix<T>(answers: seq<TokenPage<T>>, i: nat)
    requires i < |answers| && answers[i].nextPageToken == ""
    requires forall k | 0 <= k < i :: answers[k].nextPageToken != ""
    ensures TokenItems(answers) == ItemsOf(answers[..i + 1])
  {
    if i == 0 {
      assert answers[..1][1..] == [];
    } else {
      TokenItemsPrefix(answers[1..], i - 1);
      assert answers[..i + 1][1..] == answers[1..][..i];
    }
  }

  lemma {:induction false} ItemsOfSnoc<T>(answers: seq<TokenPage<T>>, i: nat)
    requires i < |answers|
    ensures ItemsOf(answers[..i + 1]) == ItemsOf(answers[..i]) + answers[i].items
  {
    if i == 0 {
      assert answers[..1][1..] == [];
    } else {
      ItemsOfSnoc(answers[1..], i - 1);
      assert answers[..i + 1][1..] == answers[1..][..i];
      assert answers[..i][1..] == answers[1..][..i - 1];
    }
  }

  /** Where a cursor listing stands after i answers with a cursor: what it
      has yielded, and what the answer i adds to it. */
  lemma {:induction false} TokenItemsSplit<T>(answers: seq<TokenPage<T>>, i: nat)
    requires i < |answers|
    requires forall k | 0 <= k < i :: answers[k].nextPageToken != ""
    ensures TokenItems(answers) == ItemsOf(answers[..i]) + answers[i].items
      + (if answers[i].nextPageToken == "" then [] else TokenItems(answers[i + 1..]))
  {
    if i > 0 {
      TokenItemsSplit(answers[1..], i - 1);
      assert answers[..i][1..] == answers[1..][..i - 1];
      assert answers[1..][i..] == answers[i + 1..];
    }
  }
}
