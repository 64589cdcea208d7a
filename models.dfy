/** The plain records of back_end/src/models.rs and the interval conversions. */
module Models {
  import opened Wrappers

  /** Rust's `i32` and `i64`. */
  type Int32 = x: int | -0x8000_0000 <= x < 0x8000_0000
  type Int64 = x: int | -0x8000_0000_0000_0000 <= x < 0x8000_0000_0000_0000

  /** A `uuid::Uuid`, treated as an opaque identifier. */
  type Uuid = nat

  /** A `NaiveDateTime`; only its identity matters to the core. */
  type Timestamp = int

  /** Postgres' `interval` as sqlx decodes it. */
  datatype PgInterval = PgInterval(months: Int32, days: Int32, microseconds: Int64)

  /** The calendar-aware duration carried by every track. The source declares
      `microseconds: i32`; the model keeps the 64-bit width of the interval it copies. */
  datatype Duration = Duration(months: Int32, days: Int32, microseconds: Int64)

  /** `Duration::default`. */
  function DefaultDuration(): (d: Duration)
    ensures d.months == 0 && d.days == 0 && d.microseconds == 0
  {
    Duration(0, 0, 0)
  }

  /** `From<PgInterval> for Duration`: a field-for-field copy. */
  function FromInterval(interval: PgInterval): (d: Duration)
    ensures d.months == interval.months
    ensures d.days == interval.days
    ensures d.microseconds == interval.microseconds
  {
    Duration(interval.months, interval.days, interval.microseconds)
  }

  /** `From<Option<PgInterval>> for Duration`: a missing interval reads as zero. */
  function FromOptionalInterval(option: Option<PgInterval>): (d: Duration)
    ensures option.None? ==> d == DefaultDuration()
    ensures option.Some? ==> d == FromInterval(option.value)
    ensures d == DefaultDuration() <==> (option.None? || option.value == PgInterval(0, 0, 0))
  {
    match option
    case Some(interval) => FromInterval(interval)
    case None => DefaultDuration()
  }

  /** The interval `INTERVAL '0 seconds'` that the queries substitute for a missing play. */
  const ZeroInterval: PgInterval := PgInterval(0, 0, 0)

  /** A row of `users`. */
  datatype User = User(
    id: Uuid,
    username: string,
    email: string,
    passwordHash: string,
    createdAt: Option<Timestamp>,
    updatedAt: Option<Timestamp>)
}
