/**
 * Argument validators (failover/validation.py). Each one classifies its
 * argument by type and range and either returns the normalised value or
 * raises ValueError or TypeError. The argument's Python type is a tag here.
 */
module Validation {
  import opened Outcomes

  /**
   * An `ok_after`/`fail_after` argument: a quantity with count units (its
   * number, which need not be whole), a quantity with time units (already
   * expressed in seconds), a quantity of any other dimension, a bare int or
   * long, or anything else.
   */
  datatype AfterArg = Count(n: real) | Time(seconds: real) | OtherDimension | BareInt(value: int) | BareOther

  /** A validated threshold: a quantity with count units or with second units. */
  datatype Threshold = CountThreshold(count: real) | SecondsThreshold(seconds: real)
  {
    predicate Positive()
    {
      match this
      case CountThreshold(n) => n > 0.0
      case SecondsThreshold(s) => s > 0.0
    }
  }

  /** The quantity a threshold is, written as an argument. */
  function AsArg(t: Threshold): AfterArg
  {
    match t
    case CountThreshold(n) => Count(n)
    case SecondsThreshold(s) => Time(s)
  }

  /** `validate_after(after)` */
  function ValidateAfter(after: AfterArg): (r: Outcome<Threshold>)
    ensures r.Returned? ==> r.value.Positive()
    ensures r.Returned? <==>
      || (after.Count? && after.n > 0.0)
      || (after.Time? && after.seconds > 0.0)
      || (after.BareInt? && after.value > 0)
    ensures r.Returned? ==> AsArg(r.value) == if after.BareInt? then Count(after.value as real) else after
    ensures r.Raised? ==> r.error == if after.BareOther? then TypeError else ValueError
  {
    match after
    case Count(n) => if n <= 0.0 then Raised(ValueError) else Returned(CountThreshold(n))
    case Time(s) => if s <= 0.0 then Raised(ValueError) else Returned(SecondsThreshold(s))
    case OtherDimension => Raised(ValueError)
    case BareInt(n) => if n <= 0 then Raised(ValueError) else Returned(CountThreshold(n as real))
    case BareOther => Raised(TypeError)
  }

  /** Every positive threshold is accepted as it is, so validation is idempotent. */
  lemma ValidateAfterAcceptsThreshold(t: Threshold)
    requires t.Positive()
    ensures ValidateAfter(AsArg(t)) == Returned(t)
  {
  }

  /** A `port` argument: an int, a string (a TCP service name), None, or anything else. */
  datatype PortArg = PortNumber(port: int) | ServiceName(name: string) | NoPort | OtherPortArg

  /**
   * `validate_port(port, optional=optional)`; `lookup` stands for
   * `socket.getservbyname(name, "tcp")`, None where it raises `socket.error`.
   */
  function ValidatePort(port: PortArg, lookup: string -> Option<int>, optional: bool := false): (r: Outcome<Option<int>>)
    ensures port.PortNumber? ==> (r.Returned? <==> 1 <= port.port <= 65535)
    ensures port.PortNumber? && r.Returned? ==> r.value == Some(port.port)
    ensures port.ServiceName? ==> (r.Returned? <==> lookup(port.name).Some?)
    ensures port.ServiceName? && r.Returned? ==> r.value == lookup(port.name)
    ensures port.NoPort? ==> (r.Returned? <==> optional)
    ensures port.NoPort? && r.Returned? ==> r.value == None
    ensures port.OtherPortArg? ==> r.Raised?
    ensures r.Raised? ==> r.error == if port.PortNumber? || port.ServiceName? then ValueError else TypeError
  {
    match port
    case PortNumber(p) => if p <= 0 || p > 65535 then Raised(ValueError) else Returned(Some(p))
    case ServiceName(name) =>
      (match lookup(name)
       case None => Raised(ValueError)
       case Some(p) => Returned(Some(p)))
    case NoPort => if optional then Returned(None) else Raised(TypeError)
    case OtherPortArg => Raised(TypeError)
  }

  /** A `duration` argument: a time quantity (in seconds), a quantity of another dimension, a number, or anything else. */
  datatype DurationArg = TimeQuantity(seconds: real) | OtherQuantity | Number(value: real) | NotNumeric

  /** `validate_duration(duration)`: the duration in seconds. */
  function ValidateDuration(duration: DurationArg): (r: Outcome<real>)
    ensures r.Returned? ==> r.value >= 0.0
    ensures r.Returned? <==>
      (duration.TimeQuantity? && duration.seconds >= 0.0) || (duration.Number? && duration.value >= 0.0)
    ensures r.Returned? ==> r.value == if duration.TimeQuantity? then duration.seconds else duration.value
    ensures r.Raised? ==> r.error == if duration.NotNumeric? then TypeError else ValueError
  {
    match duration
    case TimeQuantity(s) => if s < 0.0 then Raised(ValueError) else Returned(s)
    case OtherQuantity => Raised(ValueError)
    case Number(v) => if v < 0.0 then Raised(ValueError) else Returned(v)
    case NotNumeric => Raised(TypeError)
  }

  /** A `host` argument: a string, None, or anything else. */
  datatype HostArg = HostName(name: string) | NoHost | OtherHostArg

  /** `validate_hostname(hostname, optional=optional)`: every string is accepted as it is. */
  function ValidateHostname(hostname: HostArg, optional: bool := false): (r: Outcome<Option<string>>)
    ensures r.Returned? <==> hostname.HostName? || (optional && hostname.NoHost?)
    ensures r.Returned? ==> r.value == if hostname.HostName? then Some(hostname.name) else None
    ensures r.Raised? ==> r.error == TypeError
  {
    match hostname
    case HostName(name) => Returned(Some(name))
    case NoHost => if optional then Returned(None) else Raised(TypeError)
    case OtherHostArg => Raised(TypeError)
  }
}
