/** The ryntric metric tag switches: the `MetricConfig` byte of tag flags and
    the `MetricTagCompositor` that collects the enabled tags. Micrometer's
    `Tags` is a set of key/value pairs keyed by tag key, where a later value for
    a key replaces the earlier one; it is modelled as a map from key to value. */
module MetricTags {
  import opened Lang
  import opened MetricFlags

  /** The ryntric `MetricTagName`: three tags, each with its key and flag bit. */
  datatype MetricTagName = WORKER_NAME | WORKER_SERVICE_NAME | WORKER_TASK_NAME
  {
    function Value(): (s: string)
    {
      match this
      case WORKER_NAME => "worker_name"
      case WORKER_SERVICE_NAME => "worker_service_name"
      case WORKER_TASK_NAME => "worker_task_name"
    }

    function Flag(): (f: bv8)
      ensures f in {1, 2, 4}
    {
      match this
      case WORKER_NAME => 0x1
      case WORKER_SERVICE_NAME => 0x2
      case WORKER_TASK_NAME => 0x4
    }
  }

  /** Different tags have different flags and different keys. */
  lemma TagsDistinct(a: MetricTagName, b: MetricTagName)
    requires a != b
    ensures SingleBits(a.Flag(), b.Flag())
    ensures a.Value() != b.Value()
  {
    assert |a.Value()| != |b.Value()|;
  }

  class MetricConfig {
    var features: bv8

    /** Every tag starts enabled. */
    constructor ()
      ensures features == 0x7
      ensures forall t: MetricTagName :: IsTagEnabled(t)
    {
      features := WORKER_NAME.Flag() | WORKER_TASK_NAME.Flag() | WORKER_SERVICE_NAME.Flag();
    }

    predicate IsTagEnabled(name: MetricTagName)
      reads this
    {
      FlagSet(features, name.Flag())
    }

    method DisableTag(name: MetricTagName)
      modifies this
      ensures features == Cleared(old(features), name.Flag())
      ensures !IsTagEnabled(name)
      ensures forall t | t != name :: IsTagEnabled(t) == old(IsTagEnabled(t))
    {
      features := Cleared(features, name.Flag());
      ClearedSpec(old(features), name.Flag(), name.Flag());
      forall t | t != name
        ensures IsTagEnabled(t) == old(IsTagEnabled(t))
      {
        TagsDistinct(name, t);
        ClearedSpec(old(features), name.Flag(), t.Flag());
      }
    }

    method EnableTag(name: MetricTagName)
      modifies this
      ensures features == Set(old(features), name.Flag())
      ensures IsTagEnabled(name)
      ensures forall t | t != name :: IsTagEnabled(t) == old(IsTagEnabled(t))
    {
      features := Set(features, name.Flag());
      SetSpec(old(features), name.Flag(), name.Flag());
      forall t | t != name
        ensures IsTagEnabled(t) == old(IsTagEnabled(t))
      {
        TagsDistinct(name, t);
        SetSpec(old(features), name.Flag(), t.Flag());
      }
    }
  }

  /** The tags after `add(name, value)` with the given flag byte: the pair is
      added only for a non-null value of an enabled tag. */
  function Added(tags: map<string, string>, features: bv8, name: MetricTagName, value: Option<string>): (r: map<string, string>)
  {
    if value.Some? && FlagSet(features, name.Flag()) then tags[name.Value() := value.value] else tags
  }

  /** The tags a chain of `add` calls leaves behind. */
  function AddedAll(tags: map<string, string>, features: bv8, adds: seq<(MetricTagName, Option<string>)>): (r: map<string, string>)
    decreases |adds|
  {
    if adds == [] then tags
    else Added(AddedAll(tags, features, adds[..|adds| - 1]), features, adds[|adds| - 1].0, adds[|adds| - 1].1)
  }

  /** The keys a chain of `add` calls leaves are the old keys plus the key of
      every enabled tag added with a non-null value. */
  lemma {:induction false} AddedAllKeys(tags: map<string, string>, features: bv8, adds: seq<(MetricTagName, Option<string>)>)
    ensures AddedAll(tags, features, adds).Keys ==
      tags.Keys + set i | 0 <= i < |adds| && adds[i].1.Some? && FlagSet(features, adds[i].0.Flag()) :: adds[i].0.Value()
    decreases |adds|
  {
    if adds != [] {
      var prefix := adds[..|adds| - 1];
      AddedAllKeys(tags, features, prefix);
      assert forall i | 0 <= i < |prefix| :: prefix[i] == adds[i];
    }
  }

  class MetricTagCompositor {
    const metricConfig: MetricConfig
    var tags: map<string, string>

    constructor (metricConfig: MetricConfig)
      ensures this.metricConfig == metricConfig && tags == map[]
    {
      this.metricConfig := metricConfig;
      tags := map[];
    }

    /** `add`: a null value or a disabled tag leaves the tags as they were;
        otherwise the tag's key now carries the value. Returns this compositor. */
    method Add(tagName: MetricTagName, value: Option<string>) returns (self: MetricTagCompositor)
      modifies this
      ensures self == this
      ensures tags == Added(old(tags), metricConfig.features, tagName, value)
      ensures value.None? || !metricConfig.IsTagEnabled(tagName) ==> tags == old(tags)
      ensures value.Some? && metricConfig.IsTagEnabled(tagName) ==>
        tagName.Value() in tags && tags[tagName.Value()] == value.value &&
        tags.Keys == old(tags).Keys + {tagName.Value()}
    {
      if value.Some? && metricConfig.IsTagEnabled(tagName) {
        tags := tags[tagName.Value() := value.value];
      }
      return this;
    }

    function Tags(): map<string, string>
      reads this
    {
      tags
    }

    method Clear()
      modifies this
      ensures tags == map[]
    {
      tags := map[];
    }
  }

  /** The three `add` calls of the compositor tests, each tag with its own name as value. */
  const EVERY_TAG: seq<(MetricTagName, Option<string>)> :=
    [(WORKER_NAME, Some("WORKER_NAME")), (WORKER_SERVICE_NAME, Some("WORKER_SERVICE_NAME")),
     (WORKER_TASK_NAME, Some("WORKER_TASK_NAME"))]

  /** Adding every tag collects exactly the keys of the enabled tags. */
  lemma EveryTagKeys(features: bv8)
    ensures AddedAll(map[], features, EVERY_TAG).Keys == set t: MetricTagName | FlagSet(features, t.Flag()) :: t.Value()
  {
    var adds := EVERY_TAG;
    AddedAllKeys(map[], features, adds);
    var byIndex := set i | 0 <= i < |adds| && adds[i].1.Some? && FlagSet(features, adds[i].0.Flag()) :: adds[i].0.Value();
    var byTag := set t: MetricTagName | FlagSet(features, t.Flag()) :: t.Value();
    forall k | k in byTag ensures k in byIndex {
      var t: MetricTagName :| FlagSet(features, t.Flag()) && k == t.Value();
      var i := if t == WORKER_NAME then 0 else if t == WORKER_SERVICE_NAME then 1 else 2;
      assert adds[i].0 == t;
    }
  }

  method AddEveryTag(c: MetricTagCompositor) returns (tags: map<string, string>)
    requires c.tags == map[]
    modifies c
    ensures tags == c.tags
    ensures tags.Keys == set t: MetricTagName | c.metricConfig.IsTagEnabled(t) :: t.Value()
  {
    var adds := EVERY_TAG;
    var features := c.metricConfig.features;
    assert adds[..1][..0] == [] && adds[..2][..1] == adds[..1] && adds[..3] == adds;
    var _ := c.Add(WORKER_NAME, Some("WORKER_NAME"));
    assert c.tags == AddedAll(map[], features, adds[..1]);
    var _ := c.Add(WORKER_SERVICE_NAME, Some("WORKER_SERVICE_NAME"));
    assert c.tags == AddedAll(map[], features, adds[..2]);
    var _ := c.Add(WORKER_TASK_NAME, Some("WORKER_TASK_NAME"));
    tags := c.Tags();
    assert tags == AddedAll(map[], features, adds);
    EveryTagKeys(features);
  }

  /** `testAllEnabled`: with every tag enabled, all of them are collected. */
  method AllEnabled() returns (tags: map<string, string>)
    ensures |tags| == 3
    ensures tags.Keys == {"worker_name", "worker_service_name", "worker_task_name"}
  {
    var config := new MetricConfig();
    config.EnableTag(WORKER_NAME);
    config.EnableTag(WORKER_SERVICE_NAME);
    config.EnableTag(WORKER_TASK_NAME);
    var c := new MetricTagCompositor(config);
    tags := AddEveryTag(c);
    assert config.IsTagEnabled(WORKER_NAME) && config.IsTagEnabled(WORKER_SERVICE_NAME) && config.IsTagEnabled(WORKER_TASK_NAME);
    assert tags.Keys == {"worker_name", "worker_service_name", "worker_task_name"};
  }

  /** `testWhenOnly1Enabled`: only the one enabled tag is collected. */
  method OnlyOneEnabled() returns (tags: map<string, string>)
    ensures tags.Keys == {"worker_service_name"}
    ensures |tags| == 1
  {
    var config := new MetricConfig();
    config.DisableTag(WORKER_NAME);
    config.DisableTag(WORKER_SERVICE_NAME);
    config.DisableTag(WORKER_TASK_NAME);
    config.EnableTag(WORKER_SERVICE_NAME);
    var c := new MetricTagCompositor(config);
    tags := AddEveryTag(c);
    assert !config.IsTagEnabled(WORKER_NAME) && config.IsTagEnabled(WORKER_SERVICE_NAME) && !config.IsTagEnabled(WORKER_TASK_NAME);
    assert tags.Keys == {"worker_service_name"};
  }

  /** `testAllDisabled`: nothing is collected. */
  method AllDisabled() returns (tags: map<string, string>)
    ensures tags == map[]
  {
    var config := new MetricConfig();
    config.DisableTag(WORKER_NAME);
    config.DisableTag(WORKER_SERVICE_NAME);
    config.DisableTag(WORKER_TASK_NAME);
    var c := new MetricTagCompositor(config);
    tags := AddEveryTag(c);
    assert !config.IsTagEnabled(WORKER_NAME) && !config.IsTagEnabled(WORKER_SERVICE_NAME) && !config.IsTagEnabled(WORKER_TASK_NAME);
    assert tags.Keys == {};
  }

  /** `testWhenOnly1Disabled`: every tag but the disabled one is collected. */
  method OnlyOneDisabled() returns (tags: map<string, string>)
    ensures "worker_service_name" !in tags
    ensures |tags| == 2
  {
    var config := new MetricConfig();
    config.EnableTag(WORKER_NAME);
    config.EnableTag(WORKER_SERVICE_NAME);
    config.EnableTag(WORKER_TASK_NAME);
    config.DisableTag(WORKER_SERVICE_NAME);
    var c := new MetricTagCompositor(config);
    tags := AddEveryTag(c);
    assert config.IsTagEnabled(WORKER_NAME) && !config.IsTagEnabled(WORKER_SERVICE_NAME) && config.IsTagEnabled(WORKER_TASK_NAME);
    assert tags.Keys == {"worker_name", "worker_task_name"};
  }
}
