/** The rows of the Google Play listing at each stage of the cleaning script.
    A pandas column whose type changes (Installs and Price turn from text
    into numbers, Size_MB and Revenue_Estimate are added) gives a new row
    type here. */
module Table {
  import opened Results

  /** A row as read from the CSV file: any cell may be missing (NaN). */
  datatype RawApp = RawApp(
    name: Option<string>,
    category: Option<string>,
    rating: Option<real>,
    reviews: Option<int>,
    size: Option<string>,
    installs: Option<string>,
    appType: Option<string>,
    price: Option<string>,
    contentRating: Option<string>,
    genres: Option<string>,
    lastUpdated: Option<string>,
    currentVer: Option<string>,
    androidVer: Option<string>)

  /** A row once the Last Updated and Android Ver columns are dropped. */
  datatype Listing = Listing(
    name: Option<string>,
    category: Option<string>,
    rating: Option<real>,
    reviews: Option<int>,
    size: Option<string>,
    installs: Option<string>,
    appType: Option<string>,
    price: Option<string>,
    contentRating: Option<string>,
    genres: Option<string>,
    currentVer: Option<string>)

  /** A listing row without missing cells. Size, Installs and Price are
      still the store's display text (`19M`, `10,000+`, `$4.99`). */
  datatype App = App(
    name: string,
    category: string,
    rating: real,
    reviews: int,
    size: string,
    installs: string,
    appType: string,
    price: string,
    contentRating: string,
    genres: string,
    currentVer: string)

  /** A row with its Size_MB column. */
  datatype Sized = Sized(app: App, sizeMB: real)

  /** A row whose Installs and Price columns have been read as numbers. */
  datatype Record = Record(app: App, sizeMB: real, installs: nat, price: real)

  /** A row with its Revenue_Estimate column. */
  datatype Earning = Earning(row: Record, revenue: real) {
    function Category(): string { row.app.category }
    function AppType(): string { row.app.appType }
    function Genres(): string { row.app.genres }
    function ContentRating(): string { row.app.contentRating }
    function Installs(): nat { row.installs }
    function Price(): real { row.price }
  }

  /** The exceptions that stop the script: a conversion that refuses a
      cell, with the text it was given. */
  datatype Failure =
    | BadSize(sizeText: string)
    | BadInstalls(installsText: string)
    | BadPrice(priceText: string)
}
