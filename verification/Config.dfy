/** Validator rotation and the mapping from nodes to validator names. */
module Config {

  datatype ValidatorConfig = ValidatorConfig(
    validators: seq<string>,
    nodeToValidator: map<string, string>)

  /** Configuration loading refuses an empty validator list. */
  ghost predicate Valid(cfg: ValidatorConfig) {
    cfg.validators != []
  }

  /** Round robin over the validator names. */
  function ValidatorFor(cfg: ValidatorConfig, blockNumber: nat): string
    requires Valid(cfg)
  {
    cfg.validators[blockNumber % |cfg.validators|]
  }

  predicate Authorized(cfg: ValidatorConfig, nodeId: string, blockNumber: nat)
    requires Valid(cfg)
  {
    && nodeId in cfg.nodeToValidator
    && cfg.nodeToValidator[nodeId] == ValidatorFor(cfg, blockNumber)
  }

  /** Two or more validators, all different. */
  ghost predicate Rotates(cfg: ValidatorConfig) {
    |cfg.validators| >= 2 &&
    forall i, j :: 0 <= i < j < |cfg.validators| ==> cfg.validators[i] != cfg.validators[j]
  }

  lemma ConsecutiveDiffer(k: nat, n: nat)
    requires n >= 2
    ensures k % n != (k + 1) % n
  {
    var d := (k + 1) / n - k / n;
    assert n * d == n * ((k + 1) / n) - n * (k / n);
    assert n * d + (k + 1) % n - k % n == 1;
    assert d >= 1 ==> n * d >= n;
    assert d <= 0 ==> n * d <= 0;
  }

  /** Under rotation no node is due at two heights in a row. */
  lemma NeverDueTwice(cfg: ValidatorConfig, nodeId: string, height: nat)
    requires Valid(cfg) && Rotates(cfg)
    ensures !(Authorized(cfg, nodeId, height) && Authorized(cfg, nodeId, height + 1))
  {
    ConsecutiveDiffer(height, |cfg.validators|);
  }

  /** The configured order: the first heights go to the validators as listed, and then over again. */
  lemma RotationIsConfiguredOrder(cfg: ValidatorConfig, height: nat)
    requires Valid(cfg)
    ensures height < |cfg.validators| ==> ValidatorFor(cfg, height) == cfg.validators[height]
    ensures ValidatorFor(cfg, height + |cfg.validators|) == ValidatorFor(cfg, height)
  {
    if height < |cfg.validators| {
      assert height % |cfg.validators| == height;
    }
    SameRemainder(height, |cfg.validators|);
  }

  lemma HeightInOrder(cfg: ValidatorConfig, height: nat)
    requires Valid(cfg)
    ensures ValidatorFor(cfg, height) ==
            if height < |cfg.validators| then cfg.validators[height] else ValidatorFor(cfg, height - |cfg.validators|)
  {
    RotationIsConfiguredOrder(cfg, height);
    if height >= |cfg.validators| {
      RotationIsConfiguredOrder(cfg, height - |cfg.validators|);
    }
  }

  lemma SameRemainder(k: nat, n: nat)
    requires n > 0
    ensures (k + n) % n == k % n
  {
    var d := (k + n) / n - k / n;
    assert n * d == n * ((k + n) / n) - n * (k / n);
    assert n * d == n + k % n - (k + n) % n;
    assert d >= 2 ==> n * d >= 2 * n;
    assert d <= 0 ==> n * d <= 0;
  }

  /** A node may create a height exactly when it is mapped to the name that is due. */
  lemma MappedNodeIsAuthorized(cfg: ValidatorConfig, nodeId: string, height: nat)
    requires Valid(cfg) && height < |cfg.validators|
    ensures Authorized(cfg, nodeId, height) <==>
            (nodeId, cfg.validators[height]) in cfg.nodeToValidator.Items
  {
    RotationIsConfiguredOrder(cfg, height);
  }
}
