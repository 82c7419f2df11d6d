/** The User record of the users table: a Java `int` id and two nullable strings. */
module Users {
  import opened Wrappers

  /** Java's 32-bit `int`. */
  type Int32 = x: int | -0x8000_0000 <= x < 0x8000_0000

  /** One user: `email` and `login` are `None` where the Java field is null. */
  datatype User = User(id: Int32, email: Option<string>, login: Option<string>)
}
