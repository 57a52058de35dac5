/** `validate_input` from the shared utilities: checks that a request's data
    holds every required field and names the ones it lacks. */
module SharedUtils {
  import opened Strings
  import Seqs

  const ValidMessage := "Valid input"
  const MissingPrefix := "Missing required fields: "

  /** The required fields that `data` lacks, in `required_fields` order and
      with repeats kept. `data` is the set of keys the request carries; it
      is a value here, so it is only read. */
  function MissingFields(data: set<string>, required: seq<string>): seq<string> {
    Seqs.Filter(required, (f: string) => f !in data)
  }

  /** `validate_input(data, required_fields)`: the verdict and its message. */
  function ValidateInput(data: set<string>, required: seq<string>): (bool, string) {
    var missing := MissingFields(data, required);
    if missing != [] then (false, MissingPrefix + Join(", ", missing))
    else (true, ValidMessage)
  }

  /** A field is reported missing exactly when it is required and absent. */
  lemma MissingFieldsMembers(data: set<string>, required: seq<string>, f: string)
    ensures f in MissingFields(data, required) <==> f in required && f !in data
  {
    Seqs.FilterMembership(required, (g: string) => g !in data, f);
  }

  /** A missing field is reported as many times as it is required. */
  lemma {:induction false} MissingFieldsRepeats(data: set<string>, required: seq<string>, f: string)
    requires f !in data
    ensures multiset(MissingFields(data, required))[f] == multiset(required)[f]
    decreases |required|
  {
    if required != [] {
      var init := required[..|required| - 1];
      MissingFieldsRepeats(data, init, f);
      assert required == init + [required[|required| - 1]];
    }
  }

  /** The input is valid exactly when every required field is present; the
      failure message lists the missing ones after a fixed prefix, and the
      two messages never coincide. */
  lemma ValidateInputIff(data: set<string>, required: seq<string>)
    ensures var (ok, message) := ValidateInput(data, required);
      && (ok <==> forall i :: 0 <= i < |required| ==> required[i] in data)
      && (ok <==> message == ValidMessage)
      && (!ok ==> message == MissingPrefix + Join(", ", MissingFields(data, required)))
  {
    var missing := MissingFields(data, required);
    if forall i :: 0 <= i < |required| ==> required[i] in data {
      NoneMissing(data, required);
    } else {
      var i :| 0 <= i < |required| && required[i] !in data;
      MissingFieldsMembers(data, required, required[i]);
      var message := MissingPrefix + Join(", ", missing);
      assert message[0] == 'M' != ValidMessage[0];
    }
  }

  lemma {:induction false} NoneMissing(data: set<string>, required: seq<string>)
    requires forall i :: 0 <= i < |required| ==> required[i] in data
    ensures MissingFields(data, required) == []
    decreases |required|
  {
    if required != [] {
      var init := required[..|required| - 1];
      assert forall i :: 0 <= i < |init| ==> init[i] == required[i];
      NoneMissing(data, init);
    }
  }
}
