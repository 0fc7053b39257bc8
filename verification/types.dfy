/** The record shapes shared by the components: users, PDF templates and the
    fields placed on a template's pages. */
module Types {
  import opened Wrappers

  /** A field is either filled in by the user or carries a fixed value. */
  datatype FieldKind = Editable | Prefilled

  /** The string stored for a kind (the `type` column and the `<select>` option values). */
  function KindName(k: FieldKind): string {
    match k
    case Editable => "editable"
    case Prefilled => "prefilled"
  }

  /** Reads a stored kind; anything other than the two names is rejected. */
  function ParseKind(s: string): (r: Option<FieldKind>)
    ensures forall k :: r == Some(k) <==> KindName(k) == s
  {
    if s == "editable" then Some(Editable)
    else if s == "prefilled" then Some(Prefilled)
    else None
  }

  /** A named rectangle on one page of a template. `value` is optional. */
  datatype Field = Field(
    id: string,
    name: string,
    kind: FieldKind,
    value: Option<string>,
    x: int,
    y: int,
    width: int,
    height: int,
    page: int)

  /** A stored PDF document with its own id, name, file URL and field list. */
  datatype Template = Template(
    id: string,
    name: string,
    fileUrl: string,
    createdAt: string,
    updatedAt: string,
    fields: seq<Field>)

  /** The two user roles. */
  datatype Role = Admin | Employee

  /** The string stored for a role in the `profiles` table. */
  function RoleName(r: Role): string {
    match r
    case Admin => "admin"
    case Employee => "employee"
  }

  /** Reads a stored role; anything other than the two names is rejected. */
  function ParseRole(s: string): (r: Option<Role>)
    ensures forall role :: r == Some(role) <==> RoleName(role) == s
  {
    if s == "admin" then Some(Admin)
    else if s == "employee" then Some(Employee)
    else None
  }

  /** A user profile; the badge number is optional. */
  datatype User = User(
    id: string,
    email: string,
    role: Role,
    fullName: string,
    badgeNumber: Option<string>)
}
