/**
 * The loading-effect registry: a fixed record from effect id to effect,
 * looked up with the matrix effect as the fallback.
 */
module LoadingEffects {

  /** The five effects the registry knows; their animation is not modelled. */
  datatype Effect = MatrixEffect | SkateEffect | VideobgEffect | ZeroOneEffect | SunBallEffect

  /** The registry record, keyed by effect id. */
  const Registry: map<string, Effect> := map[
    "matrix" := MatrixEffect,
    "skate" := SkateEffect,
    "videobg" := VideobgEffect,
    "zeroone" := ZeroOneEffect,
    "sunball" := SunBallEffect
  ]

  /** The id each effect is registered under. */
  function IdOf(e: Effect): (id: string)
    ensures id in Registry && Registry[id] == e
  {
    match e
    case MatrixEffect => "matrix"
    case SkateEffect => "skate"
    case VideobgEffect => "videobg"
    case ZeroOneEffect => "zeroone"
    case SunBallEffect => "sunball"
  }

  /**
   * `getLoadingEffect`: the registered entry for `effectId`, or the matrix
   * effect for any id the record does not hold. Every effect value is an
   * object and so truthy; only a missing key falls through to the default.
   */
  function GetLoadingEffect(effectId: string): (r: Effect)
    ensures effectId in Registry ==> r == Registry[effectId]
    ensures effectId !in Registry ==> r == MatrixEffect
    ensures r in Registry.Values
  {
    if effectId in Registry then Registry[effectId] else Registry["matrix"]
  }

  /** The registered ids are exactly the five names, and no two share an effect. */
  lemma RegistryIds()
    ensures Registry.Keys == {"matrix", "skate", "videobg", "zeroone", "sunball"}
    ensures forall a, b :: a in Registry && b in Registry && Registry[a] == Registry[b] ==> a == b
  {
  }

  /** Looking up an effect's own id gives that effect back: each effect is reachable. */
  lemma LookupOfId(e: Effect)
    ensures GetLoadingEffect(IdOf(e)) == e
  {
  }
}
