/**
 * The resilience section of the configuration: circuit-breaker and retry
 * settings, with their defaults and `validate` guard chains. Every guard is
 * conditioned on its section being enabled, so a disabled section always
 * validates.
 */
module ConfigResilience {
  import opened Wrappers
  import opened Configs

  // The `ValidationError` messages, word for word.
  const ThresholdMessage: string :=
    "resilience.circuit_breaker.threshold must be > 0 when circuit breaker is enabled"
  const TimeoutMessage: string :=
    "resilience.circuit_breaker.timeout must be > 0 when circuit breaker is enabled"
  const SuccessThresholdMessage: string :=
    "resilience.circuit_breaker.success_threshold must be > 0 when circuit breaker is enabled"
  const MaxAttemptsMessage: string := "resilience.retry.max_attempts must be > 0 when retry is enabled"
  const InitialDelayMessage: string := "resilience.retry.initial_delay must be > 0 when retry is enabled"
  const MaxDelayMessage: string := "resilience.retry.max_delay must be > 0 when retry is enabled"
  const DelayOrderMessage: string := "resilience.retry.initial_delay must be <= max_delay"
  const MultiplierMessage: string := "resilience.retry.multiplier must be > 0.0 when retry is enabled"

  datatype CircuitBreakerConfig = CircuitBreakerConfig(
    enabled: bool, threshold: nat, timeout: nat, successThreshold: nat)
  {
    function Guards(): seq<Guard>
    {
      [ Guard(enabled && threshold == 0, ThresholdMessage),
        Guard(enabled && timeout == 0, TimeoutMessage),
        Guard(enabled && successThreshold == 0, SuccessThresholdMessage) ]
    }

    function Validate(): (r: Verdict)
      ensures r.Pass? <==> (enabled ==> threshold > 0 && timeout > 0 && successThreshold > 0)
      ensures !enabled ==> r.Pass?
    {
      FirstFiring(Guards())
    }
  }

  datatype RetryBackoff = Exponential | Linear | Constant

  /** Delays are in milliseconds; the f64 multiplier is a real. */
  datatype RetryConfig = RetryConfig(
    enabled: bool, maxAttempts: nat, backoff: RetryBackoff, initialDelay: nat, maxDelay: nat,
    multiplier: real)
  {
    function Guards(): seq<Guard>
    {
      [ Guard(enabled && maxAttempts == 0, MaxAttemptsMessage),
        Guard(enabled && initialDelay == 0, InitialDelayMessage),
        Guard(enabled && maxDelay == 0, MaxDelayMessage),
        Guard(enabled && initialDelay > maxDelay, DelayOrderMessage),
        Guard(enabled && multiplier <= 0.0, MultiplierMessage) ]
    }

    /** An enabled retry needs attempts, positive delays in order, and a positive multiplier. */
    function Validate(): (r: Verdict)
      ensures r.Pass? <==> (enabled ==> maxAttempts > 0 && 0 < initialDelay <= maxDelay
                                        && multiplier > 0.0)
      ensures !enabled ==> r.Pass?
    {
      FirstFiring(Guards())
    }
  }

  datatype ResilienceConfig = ResilienceConfig(circuitBreaker: CircuitBreakerConfig, retry: RetryConfig)
  {
    function AllGuards(): seq<Guard>
    {
      circuitBreaker.Guards() + retry.Guards()
    }

    /** `circuit_breaker.validate()?`, then `retry.validate()?`. */
    function Validate(): (r: Verdict)
      ensures r.Pass? <==> circuitBreaker.Validate().Pass? && retry.Validate().Pass?
      ensures circuitBreaker.Validate().Fail? ==> r == circuitBreaker.Validate()
    {
      ChainTwo(circuitBreaker.Validate(), retry.Validate());
      Chain([circuitBreaker.Validate(), retry.Validate()])
    }
  }

  /** The section reports the first firing guard of its eight, in source order. */
  lemma ResilienceConfigIsOneChain(c: ResilienceConfig)
    ensures c.Validate() == FirstFiring(c.AllGuards())
  {
    ChainTwo(c.circuitBreaker.Validate(), c.retry.Validate());
    FirstFiringAppend(c.circuitBreaker.Guards(), c.retry.Guards());
  }

  /**
   * With zero delays, the zero-delay message is reported and not the
   * ordering one; with delays out of order, the ordering message.
   */
  lemma RetryDelayMessages(c: RetryConfig)
    requires c.enabled && c.maxAttempts > 0
    ensures c.initialDelay == 0 ==> c.Validate() == Fail(ValidationError(InitialDelayMessage))
    ensures 0 < c.maxDelay < c.initialDelay ==> c.Validate() == Fail(ValidationError(DelayOrderMessage))
  {
    var g := c.Guards();
    if c.initialDelay == 0 {
      FirstFiringAt(g, 1);
    } else if 0 < c.maxDelay < c.initialDelay {
      FirstFiringAt(g, 3);
    }
  }

  const DefaultCircuitBreakerConfig := CircuitBreakerConfig(true, 5, 60, 2)

  const DefaultRetryConfig := RetryConfig(true, 3, Exponential, 100, 10000, 2.0)

  const DefaultResilienceConfig := ResilienceConfig(DefaultCircuitBreakerConfig, DefaultRetryConfig)

  lemma DefaultsValidate()
    ensures DefaultCircuitBreakerConfig.Validate().Pass?
    ensures DefaultRetryConfig.Validate().Pass?
    ensures DefaultResilienceConfig.Validate().Pass?
  {
  }
}
