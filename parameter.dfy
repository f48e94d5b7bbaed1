/**
 * The training parameters of an SVM (libsvm's Parameter object, with the
 * Ruby constructor and helpers of the toolkit around it).
 */
module Parameters {
  import opened Errors

  // libsvm's constants for the type of SVM problem
  const C_SVC: int := 0
  const NU_SVC: int := 1
  const ONE_CLASS: int := 2
  const EPSILON_SVR: int := 3
  const NU_SVR: int := 4

  // libsvm's constants for the kernel type
  const LINEAR: int := 0
  const POLY: int := 1
  const RBF: int := 2
  const SIGMOID: int := 3
  const PRECOMPUTED: int := 4

  /** The value of every field the Ruby constructor sets. */
  datatype Settings = Settings(
    svmType: int, kernelType: int, C: real, gamma: real, degree: int, coef0: real,
    eps: real, nrWeight: int, nu: real, p: real, shrinking: int, probability: int)

  /** The hash given to Parameter.new: a key is present or missing. */
  datatype Args = Args(
    svmType: Option<int>, kernelType: Option<int>, cost: Option<real>, gamma: Option<real>,
    degree: Option<int>, coef0: Option<real>, eps: Option<real>, nrWeight: Option<int>,
    nu: Option<real>, p: Option<real>, shrinking: Option<int>, probability: Option<int>)

  /** The empty hash. */
  const NoArgs := Args(None, None, None, None, None, None, None, None, None, None, None, None)

  /** Hash#fetch with a default. */
  function Fetch<T>(o: Option<T>, default: T): T {
    match o
    case Some(v) => v
    case None => default
  }

  /** The fields the constructor assigns: each key's value, or its default when the key is missing. */
  function Defaults(args: Args): Settings {
    Settings(
      Fetch(args.svmType, C_SVC), Fetch(args.kernelType, LINEAR), Fetch(args.cost, 1.0),
      Fetch(args.gamma, 0.0), Fetch(args.degree, 1), Fetch(args.coef0, 0.0),
      Fetch(args.eps, 0.001), Fetch(args.nrWeight, 0), Fetch(args.nu, 0.5),
      Fetch(args.p, 0.1), Fetch(args.shrinking, 1), Fetch(args.probability, 0))
  }

  /** The range the constructor accepts for nu: (0, 1]. */
  predicate NuValid(nu: real) {
    0.0 < nu <= 1.0
  }

  /**
   * What the constructor's nu check raises as written: the line
   * `raise ArgumentError "..."` calls a method named ArgumentError, which
   * does not exist, so Ruby raises NoMethodError instead.
   */
  function ConfigureAsWritten(args: Args): (r: Result<Settings>)
    ensures r.Ok? <==> NuValid(Fetch(args.nu, 0.5))
    ensures r.Err? ==> r.error == NoMethodError("ArgumentError")
  {
    var s := Defaults(args);
    if NuValid(s.nu) then Ok(s) else Err(NoMethodError("ArgumentError"))
  }

  /** The message the constructor evidently means to raise (the nu value itself is not formatted). */
  const InvalidNu := "Invalid value of nu, should be in (0,1]"

  /** Parameter.new as intended: the defaulted fields, or an ArgumentError for a nu outside (0, 1]. */
  function Configure(args: Args): (r: Result<Settings>)
    ensures r.Ok? <==> NuValid(Fetch(args.nu, 0.5))
    ensures r.Err? ==> r.error.ArgumentError?
  {
    var s := Defaults(args);
    if NuValid(s.nu) then Ok(s) else Err(ArgumentError(InvalidNu))
  }

  /** The hash that names every field of s. */
  function ArgsOf(s: Settings): Args {
    Args(Some(s.svmType), Some(s.kernelType), Some(s.C), Some(s.gamma), Some(s.degree),
         Some(s.coef0), Some(s.eps), Some(s.nrWeight), Some(s.nu), Some(s.p),
         Some(s.shrinking), Some(s.probability))
  }

  /** A missing key takes the documented default for every field, and `:cost` is what sets C. */
  lemma DefaultSettings()
    ensures Configure(NoArgs) == Ok(Settings(C_SVC, LINEAR, 1.0, 0.0, 1, 0.0, 0.001, 0, 0.5, 0.1, 1, 0))
    ensures forall c :: Configure(NoArgs.(cost := Some(c))).value.C == c
  {
  }

  /** Every valid setting is reached by naming its fields: the constructor keeps each given value. */
  lemma ConfigureRoundTrip(s: Settings)
    requires NuValid(s.nu)
    ensures Configure(ArgsOf(s)) == Ok(s)
  {
  }

  /** The finding: for nu = 0 the code raises NoMethodError where ArgumentError is meant. */
  lemma NuCheckRaisesWrongError()
    ensures ConfigureAsWritten(NoArgs.(nu := Some(0.0))) == Err(NoMethodError("ArgumentError"))
    ensures Configure(NoArgs.(nu := Some(0.0))) == Err(ArgumentError(InvalidNu))
  {
  }

  /** The settings the searches train with: a C-SVC with an RBF kernel at the given cost and gamma. */
  function RbfArgs(cost: real, gamma: real): Args {
    NoArgs.(svmType := Some(C_SVC), kernelType := Some(RBF), cost := Some(cost), gamma := Some(gamma))
  }

  /** The search settings are always accepted, and carry exactly C-SVC, RBF, the cost and the gamma. */
  function RbfSettings(cost: real, gamma: real): (s: Settings)
    ensures Configure(RbfArgs(cost, gamma)) == Ok(s)
    ensures s.svmType == C_SVC && s.kernelType == RBF && s.C == cost && s.gamma == gamma
  {
    Defaults(RbfArgs(cost, gamma))
  }

  /** The kernels offered for selection: every kernel except PRECOMPUTED. */
  function Kernels(): (r: seq<int>)
    ensures |r| == 4 && PRECOMPUTED !in r
    ensures forall i, j :: 0 <= i < j < |r| ==> r[i] != r[j]
  {
    [LINEAR, POLY, RBF, SIGMOID]
  }

  /** The printable name of a kernel constant. */
  function KernelName(kernel: int): string {
    if kernel == LINEAR then "Linear"
    else if kernel == POLY then "Polynomial"
    else if kernel == RBF then "Radial basis function"
    else if kernel == SIGMOID then "Sigmoid"
    else "Unknown"
  }

  /** A kernel has a name exactly when it is one of the listed kernels, and the names are distinct. */
  lemma KernelNameKnownIff(kernel: int)
    ensures KernelName(kernel) != "Unknown" <==> kernel in Kernels()
    ensures forall k :: k in Kernels() && k != kernel && kernel in Kernels() ==> KernelName(k) != KernelName(kernel)
  {
  }

  /** libsvm's Parameter object: every field may be reassigned. */
  class Parameter {
    var svmType: int
    var kernelType: int
    var C: real
    var gamma: real
    var degree: int
    var coef0: real
    var eps: real
    var nrWeight: int
    var nu: real
    var p: real
    var shrinking: int
    var probability: int

    /** The current field values. */
    function Value(): Settings
      reads this
    {
      Settings(svmType, kernelType, C, gamma, degree, coef0, eps, nrWeight, nu, p, shrinking, probability)
    }

    constructor Assign(s: Settings)
      ensures Value() == s
    {
      svmType, kernelType, C, gamma := s.svmType, s.kernelType, s.C, s.gamma;
      degree, coef0, eps, nrWeight := s.degree, s.coef0, s.eps, s.nrWeight;
      nu, p, shrinking, probability := s.nu, s.p, s.shrinking, s.probability;
    }

    /** Parameter.new(args): a fresh object holding the defaulted fields, or the error for a bad nu. */
    static method New(args: Args) returns (r: Result<Parameter>)
      ensures r.Ok? <==> Configure(args).Ok?
      ensures r.Ok? ==> fresh(r.value) && r.value.Value() == Configure(args).value
      ensures r.Err? ==> r.error == Configure(args).error
    {
      var s := Defaults(args);
      if !NuValid(s.nu) {
        return Err(ArgumentError(InvalidNu));
      }
      var param := new Parameter.Assign(s);
      return Ok(param);
    }

    /** The readable name of C. */
    function Cost(): (c: real)
      reads this
      ensures c == Value().C
    {
      C
    }

    /** Setting the cost sets C and nothing else, so Cost() afterwards reads the new value. */
    method SetCost(v: real)
      modifies this
      ensures Value() == old(Value()).(C := v)
      ensures Cost() == v
    {
      C := v;
    }
  }
}
