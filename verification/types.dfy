/** Records shared by the portal's client code: the optional value used for
    nullable columns, the two user roles, the profile row and the payment status. */
module Types {

  /** A nullable value (`T | null` in the client code). */
  datatype Option<+T> = None | Some(value: T)

  /** The two roles a profile can carry. */
  datatype Role = Admin | Customer

  /** The role as it is stored in the `profiles.role` column. */
  function RoleName(role: Role): (name: string)
    ensures name == "admin" <==> role == Admin
    ensures name == "customer" <==> role == Customer
  {
    match role
    case Admin => "admin"
    case Customer => "customer"
  }

  /** A row of the `profiles` table, keyed by the identity provider's user id. */
  datatype Profile = Profile(
    id: string,
    role: Role,
    fullName: Option<string>,
    subscriptionPlan: Option<string>,
    address: Option<string>,
    createdAt: string)

  /** The `status` column of a payment. */
  datatype PaymentStatus = Pending | Paid | Failed
}
