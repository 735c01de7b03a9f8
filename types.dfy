/** The records of the storefront: catalog items, users, bag entries and the
    single application state that the page renders from. */
module Types {

  datatype Option<+T> = None | Some(value: T)

  /** The catalog view selector; `NoTab` is the empty-string member of the
      source's union, which no code path ever selects. */
  datatype Tab = Girls | Guys | Sale | NoTab | Home

  /** The overlay on top of the page; `NoModal` is the empty string, meaning
      that no overlay is shown. */
  datatype Modal = SearchModal | ProfileModal | SignInModal | BagModal | NoModal

  /** A catalog product. Prices are whole pence. A `discountedPrice` of 0
      stands for "no discount" (the source only ever tests it for truthiness). */
  datatype Item = Item(
    id: int,
    category: string,
    name: string,
    image: string,
    price: int,
    discountedPrice: int,
    dateEntered: string,
    stock: int)

  /** One line of the shopping bag: an item id and how many of it. */
  datatype BagItem = BagItem(id: int, quantity: int)

  /** A user record; `bag` is the snapshot stored with the record, if any. */
  datatype User = User(
    firstName: string,
    lastName: string,
    id: string,
    password: string,
    bag: Option<seq<BagItem>>)

  /** Everything the page is rendered from. */
  datatype State = State(
    store: seq<Item>,
    tab: Tab,
    modal: Modal,
    search: string,
    user: Option<User>,
    selectedItem: Option<Item>,
    bag: seq<BagItem>)

  /** The state the page starts with. */
  const InitialState := State([], Home, NoModal, "", None, None, [])
}
