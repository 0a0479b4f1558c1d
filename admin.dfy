/** Admin access (lib/admin.ts): an admin is a signed-in user whose e-mail,
    lower-cased, equals one entry of the comma-separated `ADMIN_EMAILS`
    allow-list. The claims lookup is a parameter. */
module Admin {
  import opened Text
  import Seqs

  /** Outcome of `supabase.auth.getClaims()`: an error, data whose claims may
      carry an e-mail, or a thrown exception. */
  datatype Claims = ClaimsError | ClaimsData(email: Option<string>) | ClaimsThrew

  /** The e-mail the source accepts from the claims: present and non-empty
      (JavaScript truthiness). */
  predicate HasEmail(claims: Claims)
  {
    claims.ClaimsData? && claims.email.Some? && claims.email.value != ""
  }

  /** `process.env.ADMIN_EMAILS || ""`. */
  function AllowListSource(adminEmails: Option<string>): string
  {
    if adminEmails.Some? then adminEmails.value else ""
  }

  function NormalizeEntry(entry: string): string
  {
    Lower(Trim(entry))
  }

  predicate NonEmpty(entry: string)
  {
    entry != ""
  }

  /** The allow-list: comma-separated entries, trimmed, lower-cased, empty
      entries dropped. */
  function ParseAllowList(raw: string): seq<string>
  {
    Seqs.Filter(NonEmpty, Seqs.Map(NormalizeEntry, Split(raw, ',')))
  }

  /** The list has at most one entry per comma-separated piece, and every
      entry is non-empty, lower-case and comma-free. */
  lemma AllowListEntries(raw: string)
    ensures |ParseAllowList(raw)| <= Count(raw, ',') + 1
    ensures forall i :: 0 <= i < |ParseAllowList(raw)| ==>
      ParseAllowList(raw)[i] != "" && IsLower(ParseAllowList(raw)[i]) && ',' !in ParseAllowList(raw)[i]
  {
    var pieces := Split(raw, ',');
    SplitPieces(raw, ',');
    var r := ParseAllowList(raw);
    forall i | 0 <= i < |r| ensures r[i] != "" && IsLower(r[i]) && ',' !in r[i] {
      EntryOfPieces(pieces, r[i]);
    }
  }

  /** Every entry kept from comma-free pieces is a non-empty, lower-case,
      comma-free string. */
  lemma EntryOfPieces(pieces: seq<string>, entry: string)
    requires NoneContains(pieces, ',')
    requires entry in Seqs.Filter(NonEmpty, Seqs.Map(NormalizeEntry, pieces))
    ensures entry != "" && IsLower(entry) && ',' !in entry
  {
    var normalized := Seqs.Map(NormalizeEntry, pieces);
    Seqs.FilterMembership(NonEmpty, normalized, entry);
    var k :| 0 <= k < |normalized| && normalized[k] == entry;
    EntryShape(pieces[k]);
  }

  lemma EntryShape(piece: string)
    requires ',' !in piece
    ensures IsLower(NormalizeEntry(piece)) && ',' !in NormalizeEntry(piece)
  {
    var t := Trim(piece);
    LowerIsLower(t);
    var j: nat :| SliceAt(piece, t, j);
    forall i | 0 <= i < |t| ensures Lower(t)[i] != ',' {
      assert t[i] == piece[j + i];
    }
  }

  /** Some piece trims and lower-cases to exactly `email`. */
  predicate NormalizesTo(pieces: seq<string>, email: string)
  {
    exists i :: 0 <= i < |pieces| && NormalizeEntry(pieces[i]) == email
  }

  /** An e-mail is on the list iff it is non-empty and some comma-separated
      entry trims and lower-cases to exactly it: whole-entry equality, not a
      substring search. */
  lemma AllowListMembership(raw: string, email: string)
    ensures email in ParseAllowList(raw) <==> email != "" && NormalizesTo(Split(raw, ','), email)
  {
    NormalizedMembership(Split(raw, ','), email);
  }

  lemma NormalizedMembership(pieces: seq<string>, email: string)
    ensures email in Seqs.Filter(NonEmpty, Seqs.Map(NormalizeEntry, pieces)) <==>
      email != "" && NormalizesTo(pieces, email)
  {
    var normalized := Seqs.Map(NormalizeEntry, pieces);
    Seqs.FilterMembership(NonEmpty, normalized, email);
    if email in normalized {
      var k :| 0 <= k < |normalized| && normalized[k] == email;
      assert NormalizeEntry(pieces[k]) == email;
    }
  }

  /** An unset or empty `ADMIN_EMAILS` gives an empty list. */
  lemma EmptyAllowList(adminEmails: Option<string>)
    requires adminEmails.None? || adminEmails == Some("")
    ensures ParseAllowList(AllowListSource(adminEmails)) == []
  {
    assert Split("", ',') == [""];
    assert Trim("") == "";
  }

  /** `isAdmin`: false on a claims error, a missing e-mail or an exception;
      otherwise membership of the lower-cased e-mail in the allow-list. */
  function IsAdmin(claims: Claims, adminEmails: Option<string>): (r: bool)
    ensures r ==> HasEmail(claims)
    ensures HasEmail(claims) ==> (r <==> Lower(claims.email.value) in ParseAllowList(AllowListSource(adminEmails)))
  {
    match claims
    case ClaimsError => false
    case ClaimsThrew => false
    case ClaimsData(email) =>
      if email.None? || email.value == "" then false
      else Lower(email.value) in ParseAllowList(AllowListSource(adminEmails))
  }

  /** Nobody is an admin when the allow-list variable is unset or empty. */
  lemma NobodyIsAdminWithoutList(claims: Claims, adminEmails: Option<string>)
    requires adminEmails.None? || adminEmails == Some("")
    ensures !IsAdmin(claims, adminEmails)
  {
    EmptyAllowList(adminEmails);
  }

  lemma ExampleSplit()
    ensures Split("b , A@x", ',') == ["b ", " A@x"]
  {
    assert "b , A@x" == "b " + [','] + " A@x";
    SplitFree("b ", ',');
    SplitFree(" A@x", ',');
    SplitPrefix("b ", ',', " A@x");
  }

  lemma ExampleEntries()
    ensures NormalizeEntry("b ") == "b"
    ensures NormalizeEntry(" A@x") == "a@x"
  {
    ExampleFirstEntry();
    ExampleSecondEntry();
  }

  lemma ExampleFirstEntry()
    ensures NormalizeEntry("b ") == "b"
  {
    assert FirstNonSpace("b ", 0) == 0;
    assert EndNonSpace("b ", 0, 2) == 1;
  }

  lemma ExampleSecondEntry()
    ensures NormalizeEntry(" A@x") == "a@x"
  {
    ExampleTrim();
    ExampleLower();
  }

  lemma ExampleTrim()
    ensures Trim(" A@x") == "A@x"
  {
    assert FirstNonSpace(" A@x", 1) == 1;
    assert FirstNonSpace(" A@x", 0) == 1;
    assert EndNonSpace(" A@x", 1, 4) == 4;
  }

  lemma ExampleLower()
    ensures Lower("A@x") == "a@x"
  {
    var r := Lower("A@x");
    assert r[0] == LowerChar('A') == 'a';
    assert r[1] == '@' && r[2] == 'x';
  }

  /** Case does not matter on either side and surrounding blanks are
      ignored. */
  lemma AdminMatchIgnoresCase()
    ensures IsAdmin(ClaimsData(Some("a@X")), Some("b , A@x"))
  {
    var raw := "b , A@x";
    ExampleSplit();
    ExampleEntries();
    assert AllowListSource(Some(raw)) == raw;
    assert Lower("a@X") == "a@x";
    assert NormalizeEntry(Split(raw, ',')[1]) == "a@x";
    AllowListMembership(raw, "a@x");
  }

  /** An e-mail that is only a part of an entry is not on the list. */
  lemma AdminMatchIsWholeEntry()
    ensures !IsAdmin(ClaimsData(Some("@x")), Some("b , A@x"))
  {
    var raw := "b , A@x";
    ExampleSplit();
    ExampleEntries();
    assert AllowListSource(Some(raw)) == raw;
    assert Lower("@x") == "@x";
    var pieces := Split(raw, ',');
    forall i | 0 <= i < |pieces| ensures NormalizeEntry(pieces[i]) != "@x" {
      if i == 1 {
        assert NormalizeEntry(pieces[1])[0] == 'a';
      }
    }
    AllowListMembership(raw, "@x");
  }

  /** `requireAdmin`: throws `Unauthorized: Admin access required` exactly
      when the user is not an admin. */
  function RequireAdmin(claims: Claims, adminEmails: Option<string>): (r: Option<string>)
    ensures r.Some? <==> !IsAdmin(claims, adminEmails)
    ensures r.Some? ==> r.value == "Unauthorized: Admin access required"
  {
    if IsAdmin(claims, adminEmails) then None else Some("Unauthorized: Admin access required")
  }

  /** `getCurrentUserEmail`: the claims e-mail, or null under the same
      conditions that make `isAdmin` false before the list is consulted. */
  function GetCurrentUserEmail(claims: Claims): (r: Option<string>)
    ensures r.Some? <==> HasEmail(claims)
    ensures r.Some? ==> r == claims.email
  {
    match claims
    case ClaimsData(Some(email)) => if email == "" then None else Some(email)
    case _ => None
  }

  /** An admin always has a current e-mail, and it is on the list. */
  lemma AdminHasListedEmail(claims: Claims, adminEmails: Option<string>)
    requires IsAdmin(claims, adminEmails)
    ensures GetCurrentUserEmail(claims).Some?
    ensures Lower(GetCurrentUserEmail(claims).value) in ParseAllowList(AllowListSource(adminEmails))
  {
  }
}
