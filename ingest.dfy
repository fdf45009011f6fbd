/** The upload loop of `handleUpload` (src/App.js): each parsed chunk of rows
    is filtered and stored under the canonical keys, with the column mapping
    guessed once from the first chunk's header list. */
module Ingest {
  import opened Wrappers
  import opened Strings
  import opened Cells
  import opened Normalizer
  import opened Records
  import opened ColumnMap
  import opened Seqs

  /** The stored form of a raw row read through the guessed mapping `g`. */
  function CanonicalRow(r: Row, g: Mapping): Row {
    map[CanonKey(Customer) := Get(r, g.customer), CanonKey(Email) := Get(r, g.email),
        CanonKey(Invoice) := Get(r, g.invoice), CanonKey(Amount) := Get(r, g.amount),
        CanonKey(DueDate) := Get(r, g.dueDate)]
  }

  /** A raw row is stored only with a non-blank customer name and a non-zero amount. */
  predicate Keep(r: Row, g: Mapping) {
    TextOf(Get(r, g.customer)) != "" && CleanNumber(Get(r, g.amount)) != 0.0
  }

  /** The rows a sequence of raw rows contributes to the buffer, in order. */
  function Canonicalize(data: seq<Row>, g: Mapping): seq<Row> {
    Select(data, r => Keep(r, g), r => CanonicalRow(r, g))
  }

  /** The uploader's state across the parser's chunk callbacks: the closure
      variables `headersSet`, `guessed` and `buffer` of `handleUpload`, and
      the header list handed to `setHeaders`. */
  class Upload {
    var headers: seq<string>
    var headersSet: bool
    var guessed: Option<Mapping>
    var buffer: seq<Row>

    predicate Valid()
      reads this
    {
      headersSet == guessed.Some?
    }

    constructor()
      ensures Valid()
      ensures headers == [] && !headersSet && guessed == None && buffer == []
    {
      headers := [];
      headersSet := false;
      guessed := None;
      buffer := [];
    }

    /** The `chunk` callback: on the first chunk, adopt the reported header
        list and guess the mapping from it; then append the kept rows. */
    method Chunk(data: seq<Row>, fields: seq<string>)
      requires Valid()
      modifies this
      ensures Valid() && headersSet
      ensures old(headersSet) ==> headers == old(headers) && guessed == old(guessed)
      ensures !old(headersSet) ==> headers == fields && guessed == Some(AutoMapping(fields))
      ensures buffer == old(buffer) + Canonicalize(data, guessed.value)
    {
      AdoptHeaders(fields);
      StoreRows(data);
    }

    /** The first chunk fixes the header list and the guessed mapping. */
    method AdoptHeaders(fields: seq<string>)
      requires Valid()
      modifies this
      ensures Valid() && headersSet && buffer == old(buffer)
      ensures old(headersSet) ==> headers == old(headers) && guessed == old(guessed)
      ensures !old(headersSet) ==> headers == fields && guessed == Some(AutoMapping(fields))
    {
      if !headersSet {
        headers := fields;
        var m := AutoMap(fields);
        guessed := Some(m);
        headersSet := true;
      }
    }

    /** The row loop: skip a blank name, skip a zero amount, store the rest
        under the canonical keys. */
    method StoreRows(data: seq<Row>)
      requires Valid() && headersSet
      modifies this`buffer
      ensures buffer == old(buffer) + Canonicalize(data, guessed.value)
    {
      var g := guessed.value;
      var k := 0;
      while k < |data|
        invariant 0 <= k <= |data|
        invariant buffer == old(buffer) + Canonicalize(data[..k], g)
      {
        var r := data[k];
        var name := TextOf(Get(r, g.customer));
        if name == "" {
          SkipStep(data, k, g);
          k := k + 1;
          continue;
        }
        var amt := CleanNumber(Get(r, g.amount));
        if amt == 0.0 {
          SkipStep(data, k, g);
          k := k + 1;
          continue;
        }
        StoreStep(old(buffer), data, k, g);
        buffer := buffer + [CanonicalRow(r, g)];
        k := k + 1;
      }
      assert data[..k] == data;
    }
  }

  lemma SkipStep(data: seq<Row>, k: nat, g: Mapping)
    requires k < |data| && !Keep(data[k], g)
    ensures Canonicalize(data[..k + 1], g) == Canonicalize(data[..k], g)
  {
    CanonicalizeStep(data, k, g);
  }

  lemma StoreStep(start: seq<Row>, data: seq<Row>, k: nat, g: Mapping)
    requires k < |data| && Keep(data[k], g)
    ensures start + Canonicalize(data[..k + 1], g) == start + Canonicalize(data[..k], g) + [CanonicalRow(data[k], g)]
  {
    CanonicalizeStep(data, k, g);
  }

  lemma CanonicalizeStep(data: seq<Row>, k: nat, g: Mapping)
    requires k < |data|
    ensures Canonicalize(data[..k + 1], g)
         == Canonicalize(data[..k], g) + (if Keep(data[k], g) then [CanonicalRow(data[k], g)] else [])
  {
    assert data[..k + 1][..k] == data[..k];
  }

  // ------------------------------------------------------------ properties

  /** A stored row has exactly the five canonical keys, each holding the raw
      row's cell under the guessed header. */
  lemma CanonicalRowFacts(r: Row, g: Mapping)
    ensures IsCanonical(CanonicalRow(r, g))
    ensures forall f :: CanonicalRow(r, g)[CanonKey(f)] == Get(r, g.Header(f))
    ensures forall k :: k in CanonicalRow(r, g) ==> exists f :: k == CanonKey(f)
  {
    var c := CanonicalRow(r, g);
    forall k | k in c ensures exists f :: k == CanonKey(f) {
      if k == CanonKey(Customer) {} else if k == CanonKey(Email) {} else if k == CanonKey(Invoice) {}
      else if k == CanonKey(Amount) {} else { assert k == CanonKey(DueDate); }
    }
  }

  /** Where the parser cuts its chunks makes no difference to the buffer. */
  lemma CanonicalizeAppend(a: seq<Row>, b: seq<Row>, g: Mapping)
    ensures Canonicalize(a + b, g) == Canonicalize(a, g) + Canonicalize(b, g)
  {
    SelectAppend(a, b, r => Keep(r, g), r => CanonicalRow(r, g));
  }

  /** Two successive chunks leave the buffer as one chunk holding both would. */
  method TwoChunks(u: Upload, c1: seq<Row>, c2: seq<Row>, fields: seq<string>)
    requires u.Valid() && !u.headersSet && u.buffer == []
    modifies u
    ensures u.guessed == Some(AutoMapping(fields))
    ensures u.buffer == Canonicalize(c1 + c2, AutoMapping(fields))
  {
    u.Chunk(c1, fields);
    u.Chunk(c2, fields);
    CanonicalizeAppend(c1, c2, AutoMapping(fields));
  }

  /** The stored rows are exactly the kept raw rows, in their original order:
      `idx` lists the positions of the kept rows, increasing, and every kept
      position is listed. */
  lemma CanonicalizeSelects(data: seq<Row>, g: Mapping) returns (idx: seq<nat>)
    ensures |idx| == |Canonicalize(data, g)|
    ensures forall a, b :: 0 <= a < b < |idx| ==> idx[a] < idx[b]
    ensures forall k :: 0 <= k < |idx| ==>
      idx[k] < |data| && Keep(data[idx[k]], g) && Canonicalize(data, g)[k] == CanonicalRow(data[idx[k]], g)
    ensures forall i :: 0 <= i < |data| && Keep(data[i], g) ==> i in idx
  {
    idx := SelectIndices(data, r => Keep(r, g), r => CanonicalRow(r, g));
  }

  /** Through any mapping, a stored row reads back the raw row's cell under
      the guessed header. */
  lemma StoredPick(r: Row, g: Mapping, m: Mapping, f: Field)
    ensures Pick(CanonicalRow(r, g), m, f) == Get(r, g.Header(f))
  {
    CanonicalRowFacts(r, g);
  }

  /** A stored row is canonical, and through any mapping it reads back the
      name and the amount that decided to keep it. */
  lemma StoredRow(r: Row, g: Mapping, m: Mapping)
    ensures IsCanonical(CanonicalRow(r, g))
    ensures NameOf(CanonicalRow(r, g), m) == TextOf(Get(r, g.customer))
    ensures AmountOf(CanonicalRow(r, g), m) == CleanNumber(Get(r, g.amount))
  {
    CanonicalRowFacts(r, g);
    StoredPick(r, g, m, Customer);
    StoredPick(r, g, m, Amount);
  }

  /** Every stored row is canonical and has a non-blank name and a non-zero
      amount, whatever mapping later reads it. */
  lemma CanonicalizeStored(data: seq<Row>, g: Mapping, m: Mapping)
    ensures forall c :: c in Canonicalize(data, g) ==>
      IsCanonical(c) && NameOf(c, m) != "" && AmountOf(c, m) != 0.0
  {
    var idx := CanonicalizeSelects(data, g);
    var out := Canonicalize(data, g);
    forall c | c in out
      ensures IsCanonical(c) && NameOf(c, m) != "" && AmountOf(c, m) != 0.0
    {
      var k :| 0 <= k < |out| && out[k] == c;
      StoredRow(data[idx[k]], g, m);
    }
  }
}
