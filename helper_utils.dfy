/**
 * The validators and the exception-catching wrappers that the two
 * material helpers share (MAMaterialHelperUtils and
 * MaterialSwapHelperUtils are the same code apart from the session they
 * ask and one message).
 *
 * An action that may throw is modelled by its outcome: the value it
 * returns or the message of the exception it throws. Dialogs and log
 * lines are not modelled.
 */
module HelperUtils {
  import opened Collections
  import opened Scene
  import opened HierarchyScan
  import MaterialSetup
  import SwapHelperData

  datatype ValidationResult = ValidationResult(isValid: bool, message: string)

  /** The outcome of running an action: what it returned, or the message of what it threw. */
  datatype Run<T> = Returned(value: T) | Threw(message: string)

  /** ValidateRequirements: valid exactly when Modular Avatar is installed. */
  function ValidateRequirements(maInstalled: bool): (r: ValidationResult)
    ensures r.isValid <==> maInstalled
    ensures r.message == (if maInstalled then "All requirements met" else "Modular Avatar package is not installed or available")
  {
    if !maInstalled then ValidationResult(false, "Modular Avatar package is not installed or available")
    else ValidationResult(true, "All requirements met")
  }

  /** Some renderer of the subtree has a material slot (what HasMaterials answers). */
  ghost predicate HasMaterialsIn(t: GameObject)
  {
    exists p: Pos :: ValidPos(t, p) && Recorded(At(t, p))
  }

  /**
   * ValidateForCopy: null is refused before anything else; a subtree
   * without a material slot is refused naming the object; anything else
   * is valid.
   */
  method ValidateForCopy(gameObject: Option<GameObject>) returns (r: ValidationResult)
    ensures gameObject.None? ==> r == ValidationResult(false, "No GameObject selected")
    ensures gameObject.Some? ==> (r.isValid <==> HasMaterialsIn(gameObject.value))
    ensures gameObject.Some? && !r.isValid ==> r.message == "'" + gameObject.value.name + "' has no materials to copy"
    ensures r.isValid ==> r.message == "Valid for copying"
  {
    if gameObject.None? {
      return ValidationResult(false, "No GameObject selected");
    }
    var has := HasMaterials(gameObject);
    if !has {
      assert forall p: Pos :: ValidPos(gameObject.value, p) ==> !Recorded(At(gameObject.value, p));
      return ValidationResult(false, "'" + gameObject.value.name + "' has no materials to copy");
    }
    return ValidationResult(true, "Valid for copying");
  }

  /** The shared shape of the two creation validators. */
  function CreationValidation(hasObject: bool, hasCopiedData: bool, validMessage: string): (r: ValidationResult)
    ensures !hasObject ==> r == ValidationResult(false, "No GameObject selected")
    ensures hasObject && !hasCopiedData ==> r == ValidationResult(false, "No material setup has been copied")
    ensures r.isValid <==> hasObject && hasCopiedData
  {
    if !hasObject then ValidationResult(false, "No GameObject selected")
    else if !hasCopiedData then ValidationResult(false, "No material setup has been copied")
    else ValidationResult(true, validMessage)
  }

  /** ValidateForCreation of the Modular Avatar helper: null first, then the session's copy. */
  method ValidateForCreation(gameObject: Option<GameObject>, session: MaterialSetup.MAMaterialHelperSession)
    returns (r: ValidationResult)
    ensures gameObject.None? ==> r == ValidationResult(false, "No GameObject selected")
    ensures gameObject.Some? && !session.HasCopiedData() ==> r == ValidationResult(false, "No material setup has been copied")
    ensures r.isValid <==> gameObject.Some? && session.HasCopiedData()
    ensures r.isValid ==> r.message == "Valid for creation"
  {
    r := CreationValidation(gameObject.Some?, session.HasCopiedData(), "Valid for creation");
  }

  /** ValidateForSwapCreation of the original helper: the same checks against its own session. */
  method ValidateForSwapCreation(gameObject: Option<GameObject>, session: SwapHelperData.MaterialSwapHelperSession)
    returns (r: ValidationResult)
    ensures gameObject.None? ==> r == ValidationResult(false, "No GameObject selected")
    ensures gameObject.Some? && !session.HasCopiedData() ==> r == ValidationResult(false, "No material setup has been copied")
    ensures r.isValid <==> gameObject.Some? && session.HasCopiedData()
    ensures r.isValid ==> r.message == "Valid for swap creation"
  {
    r := CreationValidation(gameObject.Some?, session.HasCopiedData(), "Valid for swap creation");
  }

  /** TryExecute(Action): true exactly when the action completes without throwing. */
  function TryExecute(action: Run<()>): (ok: bool)
    ensures ok <==> action.Returned?
  {
    match action
    case Returned(_) => true
    case Threw(_) => false
  }

  /** TryExecute(Func): the function's value, or `defaultValue` when it throws. */
  function TryExecuteOr<T>(func: Run<T>, defaultValue: T): (r: T)
    ensures func.Returned? ==> r == func.value
    ensures func.Threw? ==> r == defaultValue
  {
    match func
    case Returned(v) => v
    case Threw(_) => defaultValue
  }
}
