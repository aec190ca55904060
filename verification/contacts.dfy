/** The contact records the validators and the CSV import work on. */
module Contacts {

  /** One contact as read from a CSV row (`ContactCreateViewModel`).
      `dateOfBirth` is a `DateOnly` given by its day number (days since
      0001-01-01, so the default date is day 0); `salary` is the `decimal`
      value as an exact real. */
  datatype Contact = Contact(
    name: string,
    dateOfBirth: nat,
    married: bool,
    phone: string,
    salary: real)

  /** The edit form's model (`ContactEditViewModel`): the same fields plus
      the database identity. */
  datatype ContactEdit = ContactEdit(id: int, contact: Contact)
}
