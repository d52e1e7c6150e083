/** The stored documents: expenses, groups and users. Amounts are `real`. */
module Models {

  /** A group expense (models/Expense.kt); `createdAt` is milliseconds since the epoch. */
  datatype Expense = Expense(
    id: string,
    title: string,
    amountRaw: real,
    currencyCode: string,
    amountInGroupCurrency: real,
    payerUid: string,
    participants: seq<string>,
    createdAt: int)

  /** A group document (models/Group.kt). */
  datatype Group = Group(
    id: string,
    name: string,
    description: string,
    adminUid: string,
    members: seq<string>,
    createdAt: int)

  /** A user profile (models/User.kt). */
  datatype User = User(uid: string, name: string, email: string, phone: string)

  /** The currency every expense is converted into. */
  const GroupCurrency: string := "RON"
}
