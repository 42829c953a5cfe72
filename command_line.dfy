/** MultipleValuesSwitch: a command-line switch that takes a value and may
    occur several times; its values accumulate in command-line order, and
    until the first one arrives the switch answers with its defaults. */
module CommandLine {
  import opened Bytes

  /** What parse reports: the number of arguments consumed, or the
      missing-value error for the named switch. */
  datatype ParseResult = Consumed(count: nat) | MissingValue(switchName: string)

  class MultipleValuesSwitch {
    /** A copy of the default list given at construction. */
    const defaultValue: seq<string>
    const mandatory: bool
    /** The values set so far, in the order they were set. */
    var value: seq<string>

    /** The list constructor: the defaults are copied and nothing is set yet. */
    constructor (defaultValue: seq<string>, mandatory: bool)
      ensures this.defaultValue == defaultValue && this.mandatory == mandatory && value == []
    {
      this.defaultValue := defaultValue;
      this.mandatory := mandatory;
      value := [];
    }

    /** No default value. */
    constructor WithoutDefault(mandatory: bool)
      ensures defaultValue == [] && this.mandatory == mandatory && value == []
    {
      defaultValue := [];
      this.mandatory := mandatory;
      value := [];
    }

    /** A single default value. */
    constructor WithDefault(defaultValue: string, mandatory: bool)
      ensures this.defaultValue == [defaultValue] && this.mandatory == mandatory && value == []
    {
      this.defaultValue := [defaultValue];
      this.mandatory := mandatory;
      value := [];
    }

    /** An array of defaults, copied in order: later changes to the array
        do not reach the switch. */
    constructor WithDefaults(defaultValue: array<string>, mandatory: bool)
      ensures this.defaultValue == defaultValue[..] && this.mandatory == mandatory && value == []
    {
      this.defaultValue := defaultValue[..];
      this.mandatory := mandatory;
      value := [];
    }

    /** The accumulated values once there are any, and the defaults only
        while none is set: the two lists are never merged. */
    function GetValue(): (r: seq<string>)
      reads this
      ensures value != [] ==> r == value
      ensures value == [] ==> r == defaultValue
    {
      if value != [] then value else defaultValue
    }

    /** One more value, at the end; from now on GetValue answers with the
        accumulated values only. */
    method SetValue(v: string)
      modifies this
      ensures value == old(value) + [v]
      ensures GetValue() == old(value) + [v]
    {
      value := value + [v];
    }

    /** parse: a missing value is an error that changes nothing; a value is
        appended and the switch and its value count as two arguments. */
    method Parse(name: string, v: Option<string>) returns (r: ParseResult)
      modifies this
      ensures v.None? ==> r == MissingValue(name) && value == old(value)
      ensures v.Some? ==> r == Consumed(2) && value == old(value) + [v.value]
    {
      if v.None? {
        return MissingValue(name);
      }
      SetValue(v.value);
      return Consumed(2);
    }
  }

  /** A fresh switch with defaults d answers with d, still does after a
      missing value, and after the values x and y answers with exactly
      [x, y], each parse consuming two arguments. */
  method Scenario(d: seq<string>, x: string, y: string)
    returns (initially: seq<string>, afterMissing: seq<string>, afterValues: seq<string>, results: seq<ParseResult>)
    ensures initially == d && afterMissing == d && afterValues == [x, y]
    ensures results == [MissingValue("-x"), Consumed(2), Consumed(2)]
  {
    var s := new MultipleValuesSwitch(d, false);
    initially := s.GetValue();
    var missing := s.Parse("-x", None);
    afterMissing := s.GetValue();
    var first := s.Parse("-x", Some(x));
    var second := s.Parse("-x", Some(y));
    afterValues := s.GetValue();
    results := [missing, first, second];
  }
}
