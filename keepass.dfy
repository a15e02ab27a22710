/** The part of a KeePass database entry (as `pykeepass` presents it) that the integration reads. */
module KeePass {

  /**
   * One entry. A missing text field (`None` in Python) other than the title
   * is the empty string: every place that reads those fields only tests them
   * for truth or searches them for `{REF:`, which treats `None` and `""` alike.
   * The title is a string: the ledger stores it as it is.
   * The custom properties keep the order of the entry's string fields.
   */
  datatype Entry = Entry(
    uuid: string,
    title: string,
    username: string,
    password: string,
    url: string,
    notes: string,
    otp: string,
    customProperties: seq<(string, string)>)
}
