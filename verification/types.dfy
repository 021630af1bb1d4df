/**
 * The closed enumerations and the user record shared by the BookWorm client pages
 * (src/types/index.ts), plus the Option type standing for TypeScript's optional fields.
 */
module Types {

  datatype Option<+T> = None | Some(value: T)

  /** `User.role`: "user" | "admin". */
  datatype Role = UserRole | AdminRole

  /** `Review.status`: "pending" | "approved" | "rejected". */
  datatype ReviewStatus = Pending | Approved | Rejected

  /** `UserBook.shelf`: "wantToRead" | "currentlyReading" | "read". */
  datatype Shelf = WantToRead | CurrentlyReading | Read

  /** `User.readingGoal`. */
  datatype ReadingGoal = ReadingGoal(year: int, targetBooks: int)

  /** The part of `User` the modelled pages read. */
  datatype User = User(name: string, role: Role, readingGoal: Option<ReadingGoal>)

  /** The wire spelling of a role. */
  function RoleName(r: Role): string
  {
    match r
    case UserRole => "user"
    case AdminRole => "admin"
  }

  /** The wire spelling of a review status. */
  function StatusName(s: ReviewStatus): string
  {
    match s
    case Pending => "pending"
    case Approved => "approved"
    case Rejected => "rejected"
  }

  /** The wire spelling of a shelf: the keys of the label and colour tables. */
  function ShelfKey(s: Shelf): string
  {
    match s
    case WantToRead => "wantToRead"
    case CurrentlyReading => "currentlyReading"
    case Read => "read"
  }

  /** Reads a shelf back from its wire spelling; any other string is not a shelf. */
  function ParseShelf(key: string): (r: Option<Shelf>)
    ensures r.Some? ==> ShelfKey(r.value) == key
    ensures forall s: Shelf :: key == ShelfKey(s) ==> r == Some(s)
  {
    if key == "wantToRead" then Some(WantToRead)
    else if key == "currentlyReading" then Some(CurrentlyReading)
    else if key == "read" then Some(Read)
    else None
  }

  /** Reads a review status back from its wire spelling. */
  function ParseStatus(name: string): (r: Option<ReviewStatus>)
    ensures r.Some? ==> StatusName(r.value) == name
    ensures forall s: ReviewStatus :: name == StatusName(s) ==> r == Some(s)
  {
    if name == "pending" then Some(Pending)
    else if name == "approved" then Some(Approved)
    else if name == "rejected" then Some(Rejected)
    else None
  }
}
