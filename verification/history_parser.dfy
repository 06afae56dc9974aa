/** The history parser: turns the records printed by `git log` into
    modifications, numbers each one by its position in the whole history, and
    keeps those that fall inside the polling window. */
module HistoryParser {
  import opened Results

  /** A point in time. Only the order of instants matters to the parser. */
  type Time = int

  /** One commit record as the deserialiser produces it. `changeNumber` is
      whatever the record carried until the parser overwrites it. */
  datatype Modification = Modification(
    kind: string,
    modifiedTime: Time,
    userName: string,
    emailAddress: string,
    comment: string,
    changeNumber: int)

  /** What the XML deserialiser makes of a document: the records it holds in
      document order, or the reason the document was rejected. */
  datatype Decoded = Decoded(records: seq<Modification>) | Malformed(reason: string)

  type Deserializer = string -> Decoded

  /** The root element the history text is wrapped in before deserialising. */
  const EnvelopeOpen := "<ArrayOfModification xmlns:xsi=\"http://www.w3.org/2001/XMLSchema-instance\" xmlns:xsd=\"http://www.w3.org/2001/XMLSchema\">"
  const EnvelopeClose := "</ArrayOfModification>"

  function Envelope(history: string): string {
    EnvelopeOpen + history + EnvelopeClose
  }

  /** Both bounds of the polling window are inclusive. */
  predicate InWindow(m: Modification, from: Time, to: Time) {
    from <= m.modifiedTime && m.modifiedTime <= to
  }

  /** Every record stamped with its 1-based position in the whole list. */
  function Numbered(records: seq<Modification>): (r: seq<Modification>)
    ensures |r| == |records|
  {
    seq(|records|, i requires 0 <= i < |records| => records[i].(changeNumber := i + 1))
  }

  /** The records inside the window, in their original order. */
  function Filter(ms: seq<Modification>, from: Time, to: Time): seq<Modification>
    decreases |ms|
  {
    if |ms| == 0 then
      []
    else
      Filter(ms[..|ms| - 1], from, to)
        + (if InWindow(ms[|ms| - 1], from, to) then [ms[|ms| - 1]] else [])
  }

  /** The reference definition of the parser's output: number the whole list
      first, then filter. */
  function Select(records: seq<Modification>, from: Time, to: Time): seq<Modification> {
    Filter(Numbered(records), from, to)
  }

  /** Change numbers strictly increase along `ms`. */
  predicate Increasing(ms: seq<Modification>) {
    forall j, k :: 0 <= j < k < |ms| ==> ms[j].changeNumber < ms[k].changeNumber
  }

  /** `m` is the record at position `m.changeNumber` of `records`, numbered. */
  predicate StampedFrom(m: Modification, records: seq<Modification>) {
    1 <= m.changeNumber <= |records| && m == records[m.changeNumber - 1].(changeNumber := m.changeNumber)
  }

  /** Filtering keeps exactly the elements inside the window. */
  lemma {:induction false} FilterMembership(ms: seq<Modification>, from: Time, to: Time)
    ensures forall m :: m in Filter(ms, from, to) <==> m in ms && InWindow(m, from, to)
    decreases |ms|
  {
    if |ms| > 0 {
      FilterMembership(ms[..|ms| - 1], from, to);
      assert ms == ms[..|ms| - 1] + [ms[|ms| - 1]];
    }
  }

  /** Filtering never reorders: every element of the result is the element of
      `ms` at some index, and those indices strictly increase. */
  lemma {:induction false} FilterKeepsIncreasing(ms: seq<Modification>, from: Time, to: Time)
    requires Increasing(ms)
    ensures Increasing(Filter(ms, from, to))
    ensures |Filter(ms, from, to)| <= |ms|
    decreases |ms|
  {
    if |ms| > 0 {
      var init := ms[..|ms| - 1];
      FilterKeepsIncreasing(init, from, to);
      FilterMembership(init, from, to);
      var f := Filter(init, from, to);
      forall j | 0 <= j < |f|
        ensures f[j].changeNumber < ms[|ms| - 1].changeNumber
      {
        assert f[j] in init;
      }
    }
  }

  /** The numbered list is increasing and each element is stamped from the input. */
  lemma NumberedFacts(records: seq<Modification>)
    ensures Increasing(Numbered(records))
    ensures forall m :: m in Numbered(records) ==> StampedFrom(m, records)
  {
  }

  /** Every element of the parser's output is the input record at position
      `changeNumber`, so the numbers are absolute positions in the whole list,
      each in 1..|records|; and they strictly increase, so the output is a
      subsequence of the input in its original order. */
  lemma SelectIsOrderedSubsequence(records: seq<Modification>, from: Time, to: Time)
    ensures |Select(records, from, to)| <= |records|
    ensures Increasing(Select(records, from, to))
    ensures forall m :: m in Select(records, from, to) ==> StampedFrom(m, records)
  {
    NumberedFacts(records);
    FilterKeepsIncreasing(Numbered(records), from, to);
    FilterMembership(Numbered(records), from, to);
  }

  /** A record reaches the output, numbered by its position, exactly when its
      time lies inside the window, bounds included. */
  lemma SelectMembership(records: seq<Modification>, from: Time, to: Time)
    ensures forall i :: 0 <= i < |records| ==>
              (records[i].(changeNumber := i + 1) in Select(records, from, to) <==>
                 from <= records[i].modifiedTime <= to)
  {
    FilterMembership(Numbered(records), from, to);
    forall i | 0 <= i < |records|
      ensures records[i].(changeNumber := i + 1) in Numbered(records)
    {
      assert Numbered(records)[i] == records[i].(changeNumber := i + 1);
    }
  }

  /** `gitHistoryParser.Parse`: wrap the text in the envelope and deserialise
      it; a rejected document raises "History Parsing Failed" and yields no
      records. Otherwise walk the records in order, stamping each with a
      running counter BEFORE the window test, and keep those inside the window. */
  method Parse(history: string, from: Time, to: Time, deserialize: Deserializer)
    returns (r: Result<seq<Modification>>)
    ensures deserialize(Envelope(history)).Malformed? <==> r.Failure?
    ensures r.Failure? ==>
              r.error == HistoryParsingFailed(deserialize(Envelope(history)).reason)
              && r.error.Message() == "History Parsing Failed"
    ensures r.Success? ==> r.value == Select(deserialize(Envelope(history)).records, from, to)
    ensures r.Success? ==>
              var records := deserialize(Envelope(history)).records;
              && |r.value| <= |records|
              && Increasing(r.value)
              && (forall m :: m in r.value ==> StampedFrom(m, records) && InWindow(m, from, to))
              && (forall i :: 0 <= i < |records| && InWindow(records[i], from, to) ==>
                    records[i].(changeNumber := i + 1) in r.value)
  {
    match deserialize(Envelope(history)) {
      case Malformed(reason) =>
        return Failure(HistoryParsingFailed(reason));
      case Decoded(mods) =>
        var results: seq<Modification> := [];
        var change := 0;
        var i := 0;
        while i < |mods|
          invariant 0 <= i <= |mods|
          invariant change == i
          invariant results == Filter(Numbered(mods)[..i], from, to)
        {
          change := change + 1;
          var mod := mods[i].(changeNumber := change);
          if from <= mod.modifiedTime && mod.modifiedTime <= to {
            results := results + [mod];
          }
          assert Numbered(mods)[..i + 1][..i] == Numbered(mods)[..i];
          i := i + 1;
        }
        assert Numbered(mods)[..|mods|] == Numbered(mods);
        SelectIsOrderedSubsequence(mods, from, to);
        SelectMembership(mods, from, to);
        FilterMembership(Numbered(mods), from, to);
        return Success(results);
    }
  }

  /** An empty list of records parses to an empty list, whatever the window. */
  lemma SelectEmpty(from: Time, to: Time)
    ensures Select([], from, to) == []
  {
  }

  /** Instants as yyyymmddHHMM numbers, which order like the dates they spell.
      They are local clock readings of a machine at UTC+10: the test's records
      carry the offset `+10:00`, which the deserialiser converts to local time,
      and all of them share it, so their order is the order of the instants. */
  function Commit(when: Time, message: string): Modification {
    Modification("Commit", when, "Fred", "abc@abc.com", message, 0)
  }

  /** Four records from 2000, 2001, 2009-01-01 10:00 and 2009-01-02 10:00,
      polled from 2009-01-01 10:00 until now: only the last two survive, and
      they keep the numbers 3 and 4. */
  lemma FourRecordExample()
    ensures
      var records := [Commit(200001011000, "Commit Message 1"),
                      Commit(200101011000, "Commit Message 2"),
                      Commit(200901011000, "Commit Message 3"),
                      Commit(200901021000, "Commit Message 4")];
      var out := Select(records, 200901011000, 202610101200);
      && |out| == 2
      && out[0].changeNumber == 3 && out[0].comment == "Commit Message 3"
      && out[1].changeNumber == 4 && out[1].comment == "Commit Message 4"
  {
    var records := [Commit(200001011000, "Commit Message 1"),
                    Commit(200101011000, "Commit Message 2"),
                    Commit(200901011000, "Commit Message 3"),
                    Commit(200901021000, "Commit Message 4")];
    var n := Numbered(records);
    assert n == [records[0].(changeNumber := 1), records[1].(changeNumber := 2),
                 records[2].(changeNumber := 3), records[3].(changeNumber := 4)];
    var from, to := 200901011000, 202610101200;
    assert n[..3][..2] == n[..2] && n[..2][..1] == n[..1] && n[..1][..0] == [];
    assert Filter(n[..1], from, to) == [];
    assert Filter(n[..2], from, to) == [];
    assert Filter(n[..3], from, to) == [n[2]];
    assert Filter(n, from, to) == [n[2], n[3]];
  }
}
