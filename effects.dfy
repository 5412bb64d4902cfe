/** What a page does beyond its own state: router navigations and toasts, recorded in order. */
module Effects {

  /** `showToast(message, severity)` */
  datatype Toast = Toast(message: string, severity: string)

  const HomeRoute := "/"
  const DashboardRoute := "/dashboard"
}
