/**
 * Store references. Inside the store a document's reference is a number; the
 * adapter sees it as the decimal text `ref.id`, and `Ref(collection, id)`
 * accepts a number or a numeric string and rejects anything else.
 */
module RefIds {
  import opened Values
  import opened Wrappers

  predicate IsDigit(c: char) {
    '0' <= c <= '9'
  }

  /** A non-empty string of decimal digits. */
  predicate IsNumeric(s: string) {
    s != [] && forall i :: 0 <= i < |s| ==> IsDigit(s[i])
  }

  function DigitChar(d: nat): (c: char)
    requires d < 10
    ensures IsDigit(c) && c as int - '0' as int == d
  {
    ('0' as int + d) as char
  }

  /** The `ref.id` text of reference `n`. */
  function IdString(n: nat): (s: string)
    ensures IsNumeric(s)
    decreases n
  {
    if n < 10 then [DigitChar(n)] else IdString(n / 10) + [DigitChar(n % 10)]
  }

  /** The number a string of decimal digits denotes. */
  function ParseDecimal(s: string): nat
    requires forall i :: 0 <= i < |s| ==> IsDigit(s[i])
  {
    if s == [] then 0
    else
      var last := s[|s| - 1];
      assert IsDigit(last);
      10 * ParseDecimal(s[..|s| - 1]) + (last as int - '0' as int)
  }

  /** Reading back the text of a reference gives the reference. */
  lemma {:induction false} ParseIdString(n: nat)
    ensures ParseDecimal(IdString(n)) == n
    decreases n
  {
    var s := IdString(n);
    if n >= 10 {
      ParseIdString(n / 10);
      assert s[..|s| - 1] == IdString(n / 10);
    }
  }

  /** Distinct references have distinct texts. */
  lemma IdStringInjective(m: nat, n: nat)
    ensures IdString(m) == IdString(n) ==> m == n
  {
    ParseIdString(m);
    ParseIdString(n);
  }

  /** The reference `Ref(collection, id)` designates, or None when the store
      rejects `id` with "Number or numeric String expected". */
  function ResolveRef(id: Value): (r: Option<nat>)
    ensures r.Some? <==> (id.Num? && id.n >= 0) || (id.Str? && IsNumeric(id.s))
  {
    match id
    case Num(n) => if n >= 0 then Some(n) else None
    case Str(s) => if IsNumeric(s) then Some(ParseDecimal(s)) else None
    case _ => None
  }

  /** The `id` the adapter hands out resolves back to the same document. */
  lemma ResolveIdString(n: nat)
    ensures ResolveRef(Str(IdString(n))) == Some(n)
  {
    ParseIdString(n);
  }
}
