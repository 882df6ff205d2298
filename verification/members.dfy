/** Members, reduced to what the marketplace rules look at: identity and role. */
module Members {

  /** A member's identity. Members are compared by identity only. */
  type MemberId = nat

  datatype Role = Buyer | Seller

  datatype Member = Member(id: MemberId, role: Role)
}
