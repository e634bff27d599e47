/** The EphemeralCredential API: the object the controller reconciles, as the
    API server stores it (api/v1alpha1/ephemeralcredential_types.go). */
module Api {

  datatype Option<+T> = None | Some(value: T)

  /** Instants and durations, in nanoseconds. */
  type Time = int

  const SECOND: Time := 1_000_000_000

  /** Credentials are numbered in the order the providers minted them. */
  type Token = nat

  /** `status.state`; `Blank` is the empty string of an object never reconciled. */
  datatype CredentialState = Blank | Pending | Active | Expiring | Failed

  datatype Reason =
    | ReasonPending
    | MintSucceeded
    | MintFailed
    | RotationFailed
    | ProviderNotFound
    | InvalidConfig
    | SecretWriteFailed

  /** The one condition the controller maintains, with the generation it speaks of. */
  datatype Condition = NoCondition | Ready(isTrue: bool, reason: Reason, observedGeneration: int)

  /** The part of the spec that the lifecycle depends on. */
  datatype Spec = Spec(provider: string, ttlSeconds: int, rotateBeforeSeconds: int)

  datatype Status = Status(
    state: CredentialState,
    expiresAt: Option<Time>,
    lastRotatedAt: Option<Time>,
    observedGeneration: int,
    ready: Condition
  )

  const EMPTY_STATUS := Status(Blank, None, None, 0, NoCondition)

  /** A credential handle: the provider that minted the credential and, standing
      for its opaque bytes, the credential itself. */
  datatype Handle = Handle(provider: string, token: Token)

  datatype EC = EC(
    generation: int,
    resourceVersion: nat,
    deleting: bool,
    finalizer: bool,
    spec: Spec,
    handle: Option<Handle>,
    status: Status
  )
}
