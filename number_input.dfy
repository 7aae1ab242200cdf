/**
 * The NumberInput component as an object: the selected country, the local
 * value and the deletion key recorded by the key-down handler, with one
 * method per event the component reacts to.
 */
module NumberInputComponent {
  import opened Wrappers
  import opened Text
  import opened Formatting
  import opened Masking

  class NumberInput {
    /** countryCodeSelect */
    var country: CountryCode
    /** the `value` state: raw number and formatted digits */
    var value: InputValue
    /** deletingTypeRef.current */
    var deleting: Option<DeletingType>

    ghost predicate Valid()
      reads this
    {
      Consistent(country, value)
    }

    /**
     * Mounting the component with a country: the effect on the selected
     * country runs once after the first render and installs the reset value,
     * whatever the initial value was.
     */
    constructor (countryCode: CountryCode)
      ensures Valid()
      ensures country == countryCode && value == ResetValue && deleting == None
    {
      country := countryCode;
      value := ResetValue;
      deleting := None;
    }

    /** onKeyDown: records Delete or Backspace, and forgets any other key. */
    method KeyDown(key: string)
      modifies this
      ensures deleting == (if key == "Delete" then Some(Delete)
                           else if key == "Backspace" then Some(Backspace)
                           else None)
      ensures country == old(country) && value == old(value)
      ensures old(Valid()) ==> Valid()
    {
      if key == "Delete" {
        deleting := Some(Delete);
      } else if key == "Backspace" {
        deleting := Some(Backspace);
      } else {
        deleting := None;
      }
    }

    /**
     * format: the change handler on the edited text and its selectionStart.
     * An edit with a non-digit is dropped and the state stays; otherwise the
     * value becomes the formatted digits and `restoreCursor` says whether the
     * cursor-restoring timer is scheduled.
     */
    method Format(text: string, selectionStart: Option<nat>) returns (restoreCursor: bool)
      modifies this
      ensures old(Valid()) ==> Valid()
      ensures country == old(country) && deleting == old(deleting)
      ensures var r := OnChange(old(country), old(deleting), old(value).formatted, text, selectionStart);
              (r.Rejected? ==> value == old(value) && !restoreCursor)
              && (r.Accepted? ==> value == r.value && restoreCursor == r.restoreCursor)
    {
      var prefix := Prefix(country);
      var previous := value.formatted;
      var inputValue := RemoveAll(text, prefix);
      var clean := Strip(inputValue);
      assert clean == CleanCandidate(country, text);
      if HasNonDigit(clean) {
        return false;
      }
      ghost var candidate := clean;
      var usingDeletion := IsDeleting(deleting);
      if DeletionFires(country, deleting, previous, selectionStart) {
        var at: nat := selectionStart.value - |prefix| - 2;
        clean := RemoveAt(clean, at);
        assert clean == AfterDeletionRule(country, deleting, previous, candidate, selectionStart);
      } else {
        assert clean == AfterDeletionRule(country, deleting, previous, candidate, selectionStart);
      }
      assert AllDigits(clean);
      var formatted := ApplyFormat(country, clean);
      value := InputValue(ParseRaw(clean), formatted);
      restoreCursor := usingDeletion && selectionStart.Some? && selectionStart.value != 0;
      assert value == OnChange(country, deleting, previous, text, selectionStart).value;
    }

    /**
     * The country selector's change: a different country re-runs the effect,
     * which resets the value; the same country leaves the state as it is.
     */
    method SelectCountry(code: CountryCode)
      modifies this
      ensures old(Valid()) ==> Valid()
      ensures country == code && deleting == old(deleting)
      ensures value == if code != old(country) then ResetValue else old(value)
    {
      if code != country {
        country := code;
        value := ResetValue;
      }
    }

    /** onBlur: hands the current value to the onChange callback. */
    method Blur() returns (emitted: InputValue)
      ensures emitted == value
    {
      emitted := value;
    }
  }
}
