/** The token amount: clamping of edits to at least one, and the token-type
    badge derived from it. */
module Amount {
  import opened Optional

  /** The result of JavaScript's `Number(value)` on the input's text:
      not-a-number, or an integer. */
  datatype Number = NaN | Int(n: int)

  /** The value an amount input or blur event carries: `None` when the event
      has no path, otherwise the parsed number. */
  type AmountEvent = Option<Number>

  /** The amount set by an input or blur event on the amount field: the
      parsed value when it is a number above one, otherwise exactly one. */
  function Clamp(e: AmountEvent): (r: int)
    ensures r >= 1
    ensures r > 1 <==> e.Some? && e.value.Int? && e.value.n > 1
    ensures r > 1 ==> r == e.value.n
  {
    if e.Some? && e.value.Int? && e.value.n > 1 then e.value.n else 1
  }

  /** Re-reading a clamped amount from the field (as the blur handler does
      after an input) leaves it where it is. */
  lemma ClampStable(e: AmountEvent)
    ensures Clamp(Some(Int(Clamp(e)))) == Clamp(e)
  {
  }

  /** The kind shown on the badge: non-fungible or fungible. */
  datatype TokenKind = Nft | Fungible {
    function Label(): string {
      match this
      case Nft => "NFT"
      case Fungible => "Fungible Token"
    }
    function Variant(): string {
      match this
      case Nft => "primary"
      case Fungible => "warning"
    }
  }

  /** The badge's first value, before any amount has been looked at. */
  const InitialKind := Nft

  /** The badge after the effect has seen `amount`: NFT for exactly one,
      fungible above one; any other amount leaves the previous badge. */
  function NextKind(prev: TokenKind, amount: int): (k: TokenKind)
    ensures amount == 1 ==> k.Label() == "NFT" && k.Variant() == "primary"
    ensures amount > 1 ==> k.Label() == "Fungible Token" && k.Variant() == "warning"
    ensures amount < 1 ==> k == prev
  {
    if amount == 1 then Nft
    else if amount > 1 then Fungible
    else prev
  }

  /** For an amount of at least one the badge depends on the amount alone:
      it is NFT exactly when the amount is one. */
  lemma KindDeterminedByAmount(p: TokenKind, q: TokenKind, amount: int)
    requires amount >= 1
    ensures NextKind(p, amount) == NextKind(q, amount)
    ensures NextKind(p, amount) == Nft <==> amount == 1
  {
  }

  /** Running the effect again on an unchanged amount changes nothing. */
  lemma NextKindIdempotent(p: TokenKind, amount: int)
    ensures NextKind(NextKind(p, amount), amount) == NextKind(p, amount)
  {
  }
}
