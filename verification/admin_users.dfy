/** User administration: the profile a new user is created with, and how a profile's house scope is shown. */
module AdminUsers {
  import opened Wrappers

  datatype Role = Admin | User

  /** The inputs of the add-user form. */
  datatype UserForm = UserForm(
    username: string,
    password: string,
    role: Role,
    restrictedBlok: string,
    restrictedNomorRumah: string)

  /** What `handleAddUser` sends to be inserted into `profiles`; `None` is null. */
  datatype ProfilePayload = ProfilePayload(
    username: string,
    password: string,
    role: Role,
    restrictedBlok: Option<string>,
    restrictedNomorRumah: Option<string>)

  /** A stored profile as the user table lists it. */
  datatype Profile = Profile(
    id: string,
    username: string,
    role: Role,
    restrictedBlok: Option<string>,
    restrictedNomorRumah: Option<string>)

  /**
   * The payload of `handleAddUser`: credentials and role as entered; an admin is
   * restricted to no house, a user to the block and number entered, even empty ones.
   */
  function BuildPayload(f: UserForm): (p: ProfilePayload)
    ensures p.username == f.username && p.password == f.password && p.role == f.role
    ensures p.role == Admin <==> p.restrictedBlok.None?
    ensures p.role == Admin <==> p.restrictedNomorRumah.None?
    ensures p.role == User ==> p.restrictedBlok == Some(f.restrictedBlok)
    ensures p.role == User ==> p.restrictedNomorRumah == Some(f.restrictedNomorRumah)
  {
    ProfilePayload(
      f.username, f.password, f.role,
      if f.role == User then Some(f.restrictedBlok) else None,
      if f.role == User then Some(f.restrictedNomorRumah) else None)
  }

  /** The profile a payload is stored as, under the id the database assigns. */
  function Stored(id: string, p: ProfilePayload): Profile {
    Profile(id, p.username, p.role, p.restrictedBlok, p.restrictedNomorRumah)
  }

  /** `value || '?'`: a missing or empty part is shown as a question mark. */
  function PartOrUnknown(o: Option<string>): string {
    match o
    case None => "?"
    case Some(s) => if s == "" then "?" else s
  }

  /** The house column of the user table: "-" for an admin, "blok/nomor" for a user. */
  function HouseScope(p: Profile): (text: string)
    ensures text == "-" <==> p.role == Admin
    ensures p.role == User ==> '/' in text
  {
    if p.role == Admin then "-"
    else
      var text := PartOrUnknown(p.restrictedBlok) + "/" + PartOrUnknown(p.restrictedNomorRumah);
      assert text[|PartOrUnknown(p.restrictedBlok)|] == '/';
      text
  }

  /** The text before the first '/' (all of it when there is none). */
  function BeforeSlash(s: string): string
    decreases |s|
  {
    if s == [] || s[0] == '/' then [] else [s[0]] + BeforeSlash(s[1..])
  }

  /** The text after the first '/' (nothing when there is none). */
  function AfterSlash(s: string): string
    decreases |s|
  {
    if s == [] then [] else if s[0] == '/' then s[1..] else AfterSlash(s[1..])
  }

  /** A block without '/' is recovered from "block/number" by splitting at the first '/'. */
  lemma {:induction false} SplitAtFirstSlash(b: string, n: string)
    requires '/' !in b
    ensures BeforeSlash(b + "/" + n) == b && AfterSlash(b + "/" + n) == n
    decreases |b|
  {
    if b == [] {
      assert b + "/" + n == ['/'] + n;
    } else {
      assert (b + "/" + n)[1..] == b[1..] + "/" + n;
      SplitAtFirstSlash(b[1..], n);
    }
  }

  /** The house column of a user created with a block (free of '/') and a number shows both back. */
  lemma ScopeShowsEnteredHouse(id: string, f: UserForm)
    requires f.role == User && f.restrictedBlok != "" && f.restrictedNomorRumah != "" && '/' !in f.restrictedBlok
    ensures BeforeSlash(HouseScope(Stored(id, BuildPayload(f)))) == f.restrictedBlok
    ensures AfterSlash(HouseScope(Stored(id, BuildPayload(f)))) == f.restrictedNomorRumah
  {
    SplitAtFirstSlash(f.restrictedBlok, f.restrictedNomorRumah);
  }

  /** A user created with an empty block is shown with "?" in its place. */
  lemma EmptyBlockShownUnknown(id: string, f: UserForm)
    requires f.role == User && f.restrictedBlok == ""
    ensures BeforeSlash(HouseScope(Stored(id, BuildPayload(f)))) == "?"
  {
    SplitAtFirstSlash("?", PartOrUnknown(Some(f.restrictedNomorRumah)));
  }

  /** The form after a successful insert: the text inputs cleared, the chosen role kept. */
  function ResetAfterSuccess(f: UserForm): (g: UserForm)
    ensures g.role == f.role
    ensures g.username == "" && g.password == "" && g.restrictedBlok == "" && g.restrictedNomorRumah == ""
    ensures BuildPayload(g).username == "" && BuildPayload(g).password == ""
    ensures g.role == User ==> BuildPayload(g).restrictedBlok == Some("")
  {
    UserForm("", "", f.role, "", "")
  }

  /** Only the role survives a reset: forms with the same role reset alike, and a second reset changes nothing. */
  lemma ResetKeepsOnlyRole(f: UserForm, h: UserForm)
    requires f.role == h.role
    ensures ResetAfterSuccess(f) == ResetAfterSuccess(h)
    ensures ResetAfterSuccess(ResetAfterSuccess(f)) == ResetAfterSuccess(f)
  {
  }
}
