/**
 * The `query` wrapper that every adapter call goes through: it flattens the
 * store's document envelope into a record and turns the store's two
 * "no such record" errors into `null`.
 */
module Query {
  import opened Values
  import opened Wrappers
  import opened RefIds
  import opened Format

  /** The store's envelope: the document's reference and its data fields. */
  datatype Doc = Doc(ref: nat, data: Record)

  /** An error the store client rejects with: its `name` and its `description`
      (the empty text when it has none). */
  datatype StoreError = StoreError(name: string, description: string)

  /** What a store round trip gives back: a document or `null`, or an error. */
  datatype Response = Answer(doc: Option<Doc>) | Raised(error: StoreError)

  /** The store's error for a missing document, index entry or set. */
  const NotFoundError := StoreError("NotFound", "instance not found")
  /** The store's error when `Select` finds no value at the path. */
  const ValueNotFoundError := StoreError("NotFound", "value not found")
  /** The store's error for a reference whose id is not a number. */
  const BadRefError := StoreError("BadRequest", "Number or numeric String expected, non-numeric String found.")
  /** The store's error when a write would break a unique index. */
  const NotUniqueError := StoreError("BadRequest", "document is not unique.")

  /** The description fragment the wrapper treats as "no such record". */
  const NumericExpected := "Number or numeric String expected"

  /** JavaScript's `text.includes(part)`: `part` occurs at some offset of `text`. */
  predicate Contains(text: string, part: string) {
    exists at :: 0 <= at <= |text| - |part| && text[at..][..|part|] == part
  }

  /** The errors the wrapper answers with `null`. */
  predicate SignalsAbsence(e: StoreError) {
    e.name == "NotFound" || (e.description != "" && Contains(e.description, NumericExpected))
  }

  /** `{ ...data, id: ref.id }`: the data fields with `id` written last. */
  function Flatten(doc: Doc): Record {
    doc.data["id" := Str(IdString(doc.ref))]
  }

  /** The `query` wrapper: a document becomes `from` of its flattened fields,
      a falsy answer or an absence error becomes `null`, any other error is re-thrown as is. */
  function Normalize(response: Response): (r: Result<Option<Record>, StoreError>)
    ensures r.Failure? <==> response.Raised? && !SignalsAbsence(response.error)
    ensures r.Failure? ==> r.error == response.error
    ensures r == Success(None) <==> response == Answer(None) || (response.Raised? && SignalsAbsence(response.error))
    ensures response.Answer? && response.doc.Some? ==>
              r.Success? && r.value.Some? &&
              r.value.value.Keys == response.doc.value.data.Keys + {"id"} &&
              r.value.value["id"] == Str(IdString(response.doc.value.ref)) &&
              forall key :: key in response.doc.value.data && key != "id" ==>
                r.value.value[key] == FromStoreValue(response.doc.value.data[key])
  {
    match response
    case Answer(None) => Success(None)
    case Answer(Some(doc)) => Success(Some(FromStore(Flatten(doc))))
    case Raised(e) => if SignalsAbsence(e) then Success(None) else Failure(e)
  }

  /** The `id` of a returned record resolves back to the document it came from,
      whatever `id` the stored data held. */
  lemma ReturnedIdResolves(doc: Doc)
    ensures Normalize(Answer(Some(doc))).value.value["id"] == Str(IdString(doc.ref))
    ensures ResolveRef(Normalize(Answer(Some(doc))).value.value["id"]) == Some(doc.ref)
  {
    ResolveIdString(doc.ref);
  }

  /** The store's own errors: the two "no such record" ones become `null`,
      the not-unique one is re-thrown. */
  lemma StoreErrorsClassified()
    ensures Normalize(Raised(NotFoundError)) == Success(None)
    ensures Normalize(Raised(ValueNotFoundError)) == Success(None)
    ensures Normalize(Raised(BadRefError)) == Success(None)
    ensures Normalize(Raised(NotUniqueError)) == Failure(NotUniqueError)
  {
    assert BadRefError.description[0..][..|NumericExpected|] == NumericExpected;
    assert |NotUniqueError.description| < |NumericExpected|;
  }
}
