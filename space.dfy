/** Whitespace and separator recognisers: the run of ' ', tab, CR and LF. */
module Space {
  import opened Wrappers

  /** The only characters treated as whitespace. */
  predicate IsSpace(c: char)
  {
    c == ' ' || c == '\t' || c == '\r' || c == '\n'
  }

  /** `s[p..q]` is made of whitespace only. */
  predicate AllSpace(s: string, p: nat, q: nat)
    requires p <= q <= |s|
  {
    forall i | p <= i < q :: IsSpace(s[i])
  }

  /**
   * `one_of(b" \t\r\n").repeat(0..)`: never fails and stops only at the end of the input
   * or at a character that is not whitespace.
   */
  function Optional(s: string, p: nat): (q: nat)
    requires p <= |s|
    ensures p <= q <= |s|
    ensures q == |s| || !IsSpace(s[q])
    decreases |s| - p
  {
    if p < |s| && IsSpace(s[p]) then Optional(s, p + 1) else p
  }

  /** Everything `Optional` skips is whitespace. */
  lemma {:induction false} OptionalIsSpace(s: string, p: nat)
    requires p <= |s|
    ensures AllSpace(s, p, Optional(s, p))
    decreases |s| - p
  {
    if p < |s| && IsSpace(s[p]) {
      OptionalIsSpace(s, p + 1);
    }
  }

  /** `one_of(b" \t\r\n").repeat(1..)`: the same maximal run, which must not be empty. */
  function Required(s: string, p: nat): (r: Option<nat>)
    requires p <= |s|
    ensures r.Some? <==> p < |s| && IsSpace(s[p])
    ensures r.Some? ==> p < r.value <= |s| && AllSpace(s, p, r.value)
    ensures r.Some? ==> r.value == |s| || !IsSpace(s[r.value])
  {
    var q := Optional(s, p);
    OptionalIsSpace(s, p);
    if q > p then Some(q) else None
  }

  /**
   * `(optional() - sym(b',') - optional()) | required()`: a comma padded by optional
   * whitespace, or else a non-empty run of whitespace.
   */
  function Comma(s: string, p: nat): (r: Option<nat>)
    requires p <= |s|
    ensures r.Some? ==> p < r.value <= |s|
    ensures r.Some? ==> forall i | p <= i < r.value :: IsSpace(s[i]) || s[i] == ','
    ensures r.None? <==> Optional(s, p) == p && (p == |s| || s[p] != ',')
    ensures r.Some? ==> r.value == |s| || !IsSpace(s[r.value])
    ensures r.Some? ==> forall i, j | p <= i < j < r.value :: !(s[i] == ',' && s[j] == ',')
  {
    var q := Optional(s, p);
    OptionalIsSpace(s, p);
    if q < |s| && s[q] == ',' then
      OptionalIsSpace(s, q + 1);
      Some(Optional(s, q + 1))
    else
      Required(s, p)
  }

  /** Any whitespace run ending before a non-space character is skipped exactly. */
  lemma {:induction false} OptionalSkips(s: string, p: nat, q: nat)
    requires p <= q <= |s|
    requires AllSpace(s, p, q)
    requires q == |s| || !IsSpace(s[q])
    ensures Optional(s, p) == q
    decreases q - p
  {
    if p < q {
      OptionalSkips(s, p + 1, q);
    }
  }

  /** Form feed, vertical tab and letters are not whitespace. */
  lemma OtherCharactersAreNotSpace()
    ensures Optional("\U{000C}", 0) == 0 && Required("\U{000C}", 0) == None
    ensures Optional("\U{000B}", 0) == 0
    ensures Comma("x", 0) == None
  {
  }
}
