/** The persistent records: one row of the OTP request ledger and one user. */
module Models {

  /**
   * A row of the `otp_requests` table: one issuance attempt. The database's
   * auto-increment `ID` is not part of the model.
   */
  datatype OtpRequest = OtpRequest(phoneNumber: string, requestedAt: int, successful: bool)

  /** A row of the `users` table; `phoneNumber` is unique. */
  datatype User = User(id: nat, phoneNumber: string, createdAt: int)
}
