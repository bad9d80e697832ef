/** The viacheslavbondarchuk metric tag switches: five tags in one flag byte,
    whose `disableTag` toggles the bit instead of clearing it. */
module MetricSwitches {
  import opened MetricFlags


  /** The viacheslavbondarchuk `MetricTagName`: five tags, each with its key and flag bit. */
  datatype MetricTagName = WORKER_NAME | WORKER_TASK_KEY | WORKER_TASK_COMPLETION_STATUS | WORKER_SERVICE_NAME | WORKER_TASK_NAME
  {
    function Value(): string
    {
      match this
      case WORKER_NAME => "worker_name"
      case WORKER_TASK_KEY => "worker_task_key"
      case WORKER_TASK_COMPLETION_STATUS => "worker_task_completion_status"
      case WORKER_SERVICE_NAME => "worker_service_name"
      case WORKER_TASK_NAME => "worker_task_name"
    }

    function Flag(): (f: bv8)
      ensures f in {1, 2, 4, 8, 16}
    {
      match this
      case WORKER_NAME => 0x1
      case WORKER_TASK_KEY => 0x2
      case WORKER_TASK_COMPLETION_STATUS => 0x4
      case WORKER_SERVICE_NAME => 0x8
      case WORKER_TASK_NAME => 0x10
    }
  }

  lemma TagsDistinct(a: MetricTagName, b: MetricTagName)
    requires a != b
    ensures SingleBits(a.Flag(), b.Flag())
  {
  }

  class MetricConfig {
    var features: bv8

    /** WORKER_NAME, WORKER_TASK_NAME and WORKER_SERVICE_NAME start enabled,
        the task key and completion status disabled. */
    constructor ()
      ensures features == 0x19
      ensures IsTagEnabled(WORKER_NAME) && IsTagEnabled(WORKER_TASK_NAME) && IsTagEnabled(WORKER_SERVICE_NAME)
      ensures !IsTagEnabled(WORKER_TASK_KEY) && !IsTagEnabled(WORKER_TASK_COMPLETION_STATUS)
    {
      features := WORKER_NAME.Flag() | WORKER_TASK_NAME.Flag() | WORKER_SERVICE_NAME.Flag();
    }

    predicate IsTagEnabled(name: MetricTagName)
      reads this
    {
      FlagSet(features, name.Flag())
    }

    /** `disableTag` as written: an exclusive or, which switches an enabled
        tag off and a disabled one back on. */
    method DisableTag(name: MetricTagName)
      modifies this
      ensures features == Toggled(old(features), name.Flag())
      ensures IsTagEnabled(name) <==> !old(IsTagEnabled(name))
      ensures forall t | t != name :: IsTagEnabled(t) == old(IsTagEnabled(t))
    {
      features := Toggled(features, name.Flag());
      ToggledSpec(old(features), name.Flag(), name.Flag());
      forall t | t != name
        ensures IsTagEnabled(t) == old(IsTagEnabled(t))
      {
        TagsDistinct(name, t);
        ToggledSpec(old(features), name.Flag(), t.Flag());
      }
    }

    /** The disabling the method's name promises: the ryntric `&= ~flag`. */
    method DisableTagCorrected(name: MetricTagName)
      modifies this
      ensures features == Cleared(old(features), name.Flag())
      ensures !IsTagEnabled(name)
      ensures forall t | t != name :: IsTagEnabled(t) == old(IsTagEnabled(t))
    {
      features := Cleared(features, name.Flag());
      ClearedSpec(old(features), name.Flag(), name.Flag());
      forall t | t != name
        ensures IsTagEnabled(t) == old(IsTagEnabled(t))
      {
        TagsDistinct(name, t);
        ClearedSpec(old(features), name.Flag(), t.Flag());
      }
    }

    method EnableTag(name: MetricTagName)
      modifies this
      ensures features == Set(old(features), name.Flag())
      ensures IsTagEnabled(name)
      ensures forall t | t != name :: IsTagEnabled(t) == old(IsTagEnabled(t))
    {
      features := Set(features, name.Flag());
      SetSpec(old(features), name.Flag(), name.Flag());
      forall t | t != name
        ensures IsTagEnabled(t) == old(IsTagEnabled(t))
      {
        TagsDistinct(name, t);
        SetSpec(old(features), name.Flag(), t.Flag());
      }
    }
  }

  /** Disabling a tag that is already disabled enables it: on a fresh
      configuration, `disableTag(WORKER_TASK_KEY)` switches the task key on. */
  method DisableOfDisabledEnables() returns (enabled: bool)
    ensures enabled
  {
    var config := new MetricConfig();
    config.DisableTag(WORKER_TASK_KEY);
    enabled := config.IsTagEnabled(WORKER_TASK_KEY);
  }

  /** With the corrected disabling, disabling every tag leaves none enabled. */
  method DisableEveryTagCorrected() returns (features: bv8)
    ensures features == 0
  {
    var config := new MetricConfig();
    config.DisableTagCorrected(WORKER_NAME);
    config.DisableTagCorrected(WORKER_TASK_KEY);
    config.DisableTagCorrected(WORKER_TASK_COMPLETION_STATUS);
    config.DisableTagCorrected(WORKER_SERVICE_NAME);
    config.DisableTagCorrected(WORKER_TASK_NAME);
    features := config.features;
  }
}
