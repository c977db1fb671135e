/**
 * The configuration record `Client.NamecheapConfig`: four nullable fields,
 * a constructor that rejects null arguments in a fixed order, and one
 * getter and one setter per field.
 */
module Config {
  import opened Wrappers

  /** Java's `int`, the value range of a `java.lang.Integer`. */
  newtype int32 = x: int | -0x8000_0000 <= x < 0x8000_0000

  /** The four values of a configuration; every one of them may be null. */
  datatype Settings = Settings(
    host: Option<string>,
    domain: Option<string>,
    password: Option<string>,
    refreshRate: Option<int32>)

  /** The constructor's parameters, in the order in which they are checked. */
  datatype Field = Host | Domain | Password | RefreshRate {
    function Position(): nat {
      match this
      case Host => 0
      case Domain => 1
      case Password => 2
      case RefreshRate => 3
    }

    /** The parameter's name as the exception message spells it. */
    function Name(): string {
      match this
      case Host => "host"
      case Domain => "domain"
      case Password => "password"
      case RefreshRate => "refreshRate"
    }
  }

  predicate IsNull(a: Settings, f: Field) {
    match f
    case Host => a.host.None?
    case Domain => a.domain.None?
    case Password => a.password.None?
    case RefreshRate => a.refreshRate.None?
  }

  /** The `IllegalArgumentException` the constructor throws. */
  datatype IllegalArgument = NullArgument(field: Field) {
    function Message(): string {
      field.Name() + " cannot be null"
    }
  }

  /**
   * The argument the constructor rejects, if any: the first null one in
   * parameter order. The value of a non-null refresh rate is not looked at.
   */
  function FirstNull(a: Settings): (r: Option<Field>)
    ensures r.None? <==> forall f: Field :: !IsNull(a, f)
    ensures r.Some? ==> IsNull(a, r.value)
    ensures r.Some? ==> forall f: Field :: f.Position() < r.value.Position() ==> !IsNull(a, f)
  {
    if IsNull(a, Host) then Some(Host)
    else if IsNull(a, Domain) then Some(Domain)
    else if IsNull(a, Password) then Some(Password)
    else if IsNull(a, RefreshRate) then Some(RefreshRate)
    else None
  }

  /**
   * The outcome of the Java constructor on the given arguments, as a value:
   * the first null argument's exception, or an object holding the arguments.
   */
  function Constructed(a: Settings): Result<Settings, IllegalArgument> {
    match FirstNull(a)
    case Some(f) => Failure(NullArgument(f))
    case None => Success(a)
  }

  class NamecheapConfig {
    var host: Option<string>
    var domain: Option<string>
    var password: Option<string>
    var refreshRate: Option<int32>

    function GetHost(): Option<string> reads this { host }
    function GetDomain(): Option<string> reads this { domain }
    function GetPassword(): Option<string> reads this { password }
    function GetRefreshRate(): Option<int32> reads this { refreshRate }

    /** What the four getters return. */
    function Snapshot(): Settings
      reads this
    {
      Settings(GetHost(), GetDomain(), GetPassword(), GetRefreshRate())
    }

    /** The part of the Java constructor that runs once every check has passed. */
    constructor (a: Settings)
      requires FirstNull(a).None?
      ensures Snapshot() == a
    {
      host := a.host;
      domain := a.domain;
      password := a.password;
      refreshRate := a.refreshRate;
    }

    /**
     * The Java constructor: it throws for the first null argument and
     * otherwise yields an object whose getters return the arguments.
     */
    static method Create(host: Option<string>, domain: Option<string>,
                         password: Option<string>, refreshRate: Option<int32>)
      returns (r: Result<NamecheapConfig, IllegalArgument>)
      ensures r.Failure? <==> FirstNull(Settings(host, domain, password, refreshRate)).Some?
      ensures r.Failure? ==> r.error == NullArgument(FirstNull(Settings(host, domain, password, refreshRate)).value)
      ensures r.Success? ==> fresh(r.value)
      ensures r.Success? ==> r.value.GetHost() == host && r.value.GetDomain() == domain
      ensures r.Success? ==> r.value.GetPassword() == password && r.value.GetRefreshRate() == refreshRate
      ensures Constructed(Settings(host, domain, password, refreshRate))
           == if r.Success? then Success(r.value.Snapshot()) else Failure(r.error)
    {
      var a := Settings(host, domain, password, refreshRate);
      match FirstNull(a)
      case Some(f) =>
        r := Failure(NullArgument(f));
      case None =>
        var c := new NamecheapConfig(a);
        r := Success(c);
    }

    method SetHost(h: Option<string>)
      modifies this
      ensures Snapshot() == old(Snapshot()).(host := h)
    {
      host := h;
    }

    method SetDomain(d: Option<string>)
      modifies this
      ensures Snapshot() == old(Snapshot()).(domain := d)
    {
      domain := d;
    }

    method SetPassword(p: Option<string>)
      modifies this
      ensures Snapshot() == old(Snapshot()).(password := p)
    {
      password := p;
    }

    method SetRefreshRate(n: Option<int32>)
      modifies this
      ensures Snapshot() == old(Snapshot()).(refreshRate := n)
    {
      refreshRate := n;
    }
  }
}
