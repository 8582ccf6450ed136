/** The check on required fields that the schemas share. */
module Changesets {
  import opened Outcomes

  predicate Blank(s: string) {
    forall c | c in s :: c in {' ', '\t', '\n', '\r'}
  }

  /** A required string must be there and hold more than white space. */
  predicate Present(field: Option<string>) {
    field.Some? && !Blank(field.value)
  }

  lemma BlankExactlyWhen(s: string)
    ensures Blank(s) <==> forall i | 0 <= i < |s| :: s[i] == ' ' || s[i] == '\t' || s[i] == '\n' || s[i] == '\r'
  {
    assert forall i | 0 <= i < |s| :: s[i] in s;
  }
}
