/**
 * The codec between the framework's plain records and the store's records
 * (`format.to` and `format.from`): a shallow, key-by-key copy that converts
 * timestamps on the way in and out.
 */
module Format {
  import opened Values

  /** What `to` does with one value: a Date becomes the store time of its ISO text. */
  function ToStoreValue(v: Value): Value {
    if v.Date? then Time(v.iso) else v
  }

  /** The test `from` applies: truthy, with a truthy `.value` that is a string. */
  predicate IsTimeLike(v: Value) {
    Truthy(v) && Truthy(ValueProp(v)) && ValueProp(v).Str?
  }

  /** What `from` does with one value: a time-like value becomes a Date of its `.value`. */
  function FromStoreValue(v: Value): Value {
    if IsTimeLike(v) then Date(ValueProp(v).s) else v
  }

  /** The record `to` builds: every key kept, no Date left. */
  function ToStore(record: Record): (r: Record)
    ensures r.Keys == record.Keys
    ensures forall key :: key in r ==> !r[key].Date?
  {
    map key | key in record :: ToStoreValue(record[key])
  }

  /** The record `from` builds: every key kept, nothing time-like left. */
  function FromStore(record: Record): (r: Record)
    ensures r.Keys == record.Keys
    ensures forall key :: key in r ==> !IsTimeLike(r[key])
  {
    map key | key in record :: FromStoreValue(record[key])
  }

  /** `format.to`: copies the record key by key into a fresh record. */
  method To(record: Record) returns (newObject: Record)
    ensures newObject == ToStore(record)
  {
    newObject := map[];
    var pending := record.Keys;
    while pending != {}
      invariant pending <= record.Keys
      invariant newObject.Keys == record.Keys - pending
      invariant forall key :: key in newObject ==> newObject[key] == ToStoreValue(record[key])
      decreases pending
    {
      var key :| key in pending;
      var value := record[key];
      if value.Date? {
        newObject := newObject[key := Time(value.iso)];
      } else {
        newObject := newObject[key := value];
      }
      pending := pending - {key};
    }
  }

  /** `format.from`: copies the record key by key into a fresh record. */
  method From(record: Record) returns (newObject: Record)
    ensures newObject == FromStore(record)
  {
    newObject := map[];
    var pending := record.Keys;
    while pending != {}
      invariant pending <= record.Keys
      invariant newObject.Keys == record.Keys - pending
      invariant forall key :: key in newObject ==> newObject[key] == FromStoreValue(record[key])
      decreases pending
    {
      var key :| key in pending;
      var value := record[key];
      if Truthy(value) && Truthy(ValueProp(value)) && ValueProp(value).Str? {
        newObject := newObject[key := Date(ValueProp(value).s)];
      } else {
        newObject := newObject[key := value];
      }
      pending := pending - {key};
    }
  }

  /** A framework record `to` and `from` carry through unchanged: no field is
      already time-like and every Date has its (never empty) ISO text. */
  predicate Plain(record: Record) {
    forall key :: key in record ==> !IsTimeLike(record[key]) && (record[key].Date? ==> record[key].iso != "")
  }

  /** A store record `from` and `to` carry through unchanged: no Date, and every
      time-like field is a store time. */
  predicate StoreShaped(record: Record) {
    forall key :: key in record ==> !record[key].Date? && (IsTimeLike(record[key]) ==> record[key].Time?)
  }

  /** Storing a plain record through `to` and reading it back through `from` gives the
      record (the store turns each `Time` expression into a timestamp with `.value`). */
  lemma FromToRoundTrip(record: Record)
    requires Plain(record)
    ensures FromStore(ToStore(record)) == record
  {
    var back := FromStore(ToStore(record));
    forall key | key in record
      ensures back[key] == record[key]
    {
      var v := record[key];
      if v.Date? {
        assert ToStore(record)[key] == Time(v.iso);
        assert ValueProp(Time(v.iso)) == Str(v.iso);
      }
    }
  }

  /** Reading a store-shaped record and writing it back gives the record. */
  lemma ToFromRoundTrip(record: Record)
    requires StoreShaped(record)
    ensures ToStore(FromStore(record)) == record
  {
    var back := ToStore(FromStore(record));
    forall key | key in record
      ensures back[key] == record[key]
    {
      var v := record[key];
      if IsTimeLike(v) {
        assert v.Time? && FromStore(record)[key] == Date(v.iso);
      }
    }
  }

  /** `to` and `from` are idempotent. */
  lemma ConversionsIdempotent(record: Record)
    ensures ToStore(ToStore(record)) == ToStore(record)
    ensures FromStore(FromStore(record)) == FromStore(record)
  {
    var once := FromStore(record);
    forall key | key in once
      ensures FromStore(once)[key] == once[key]
    {
    }
  }

  /** `from` converts exactly the time-like values: a store time with non-empty
      text, and also any other record whose `value` key holds a non-empty string. */
  lemma FromConvertsExactlyTimeLike(v: Value)
    ensures FromStoreValue(v).Date? && !v.Date? <==>
            (v.Time? && v.iso != "") || (v.Obj? && "value" in v.props && v.props["value"].Str? && v.props["value"].s != "")
  {
  }

  /** `from` never converts a value whose `.value` is the empty string: a store time
      with empty text, or a record whose `value` key holds "", is copied unchanged. */
  lemma FromKeepsEmptyValue(v: Value)
    requires ValueProp(v) == Str("")
    ensures FromStoreValue(v) == v
  {
  }
}
